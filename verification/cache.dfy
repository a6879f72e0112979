/**
 * `Cache`: a blob store on the device's cache directory, addressed by the
 * lowercase hex SHA-1 of a logical key. The Android `Context` is an
 * `Option` (`None` is a null context) holding the directory as a map from
 * file name to file bytes.
 */
module Cache {
  import opened Wrappers
  import Hex

  type byte = bv8

  /** SHA-1 produces 20 bytes. */
  const DigestLength: nat := 20

  type Digest = d: seq<Hex.JByte> | |d| == DigestLength witness seq(20, _ => 0 as Hex.JByte)

  /**
   * SHA-1 of the key's bytes in the platform's default charset. Both the
   * charset conversion and the digest are platform code, so the model takes
   * them as one opaque function supplied by the caller.
   */
  type Sha1 = string -> Digest

  /** The cache directory: file name to file contents. */
  type Dir = map<string, seq<byte>>

  /** What `set` and `delete` leave behind: the context afterwards and the value returned. */
  datatype Effect<R> = Effect(context: Option<Dir>, value: Option<R>)

  /** `Cache.key`: the file name of a logical key, 40 lowercase hex characters encoding its digest. */
  function Key(sha1: Sha1, key: string): (name: string)
    ensures |name| == 2 * DigestLength
    ensures Hex.IsLowerHex(name)
    ensures Hex.Unhex(name) == sha1(key)
  {
    var name := Hex.DigestHex(sha1(key));
    Hex.DigestHexRoundTrip(sha1(key));
    name
  }

  /** Two logical keys share a file exactly when their digests coincide. */
  lemma KeyCollision(sha1: Sha1, k1: string, k2: string)
    ensures Key(sha1, k1) == Key(sha1, k2) <==> sha1(k1) == sha1(k2)
  {
    Hex.DigestHexInjective(sha1(k1), sha1(k2));
  }

  /** `Cache.set`: with a context, writes `value` as the whole content of the key's file; without one, does nothing. */
  function Set(sha1: Sha1, context: Option<Dir>, key: string, value: seq<byte>): (e: Effect<()>)
    ensures context.None? ==> e == Effect(None, None)
    ensures context.Some? ==> e.value == Some(()) && e.context.Some?
    ensures context.Some? ==>
      && e.context.value.Keys == context.value.Keys + {Key(sha1, key)}
      && e.context.value[Key(sha1, key)] == value
      && forall name | name in context.value && name != Key(sha1, key) ::
           e.context.value[name] == context.value[name]
  {
    match context
    case None => Effect(None, None)
    case Some(dir) => Effect(Some(dir[Key(sha1, key) := value]), Some(()))
  }

  /** `Cache.get`: the bytes of the key's file, or null when there is no context or no such file. */
  function Get(sha1: Sha1, context: Option<Dir>, key: string): (r: Option<seq<byte>>)
    ensures r.Some? <==> context.Some? && Key(sha1, key) in context.value
    ensures r.Some? ==> r.value == context.value[Key(sha1, key)]
  {
    match context
    case None => None
    case Some(dir) =>
      var name := Key(sha1, key);
      if name in dir then Some(dir[name]) else None
  }

  /** `Cache.delete`: removes the key's file and returns whether one was there; without a context, does nothing. */
  function Delete(sha1: Sha1, context: Option<Dir>, key: string): (e: Effect<bool>)
    ensures context.None? ==> e == Effect(None, None)
    ensures context.Some? ==> e.value == Some(Key(sha1, key) in context.value) && e.context.Some?
    ensures context.Some? ==>
      && e.context.value.Keys == context.value.Keys - {Key(sha1, key)}
      && forall name | name in e.context.value :: e.context.value[name] == context.value[name]
  {
    match context
    case None => Effect(None, None)
    case Some(dir) =>
      var name := Key(sha1, key);
      Effect(Some(dir - {name}), Some(name in dir))
  }

  /** Without a context every operation returns null and leaves nothing behind. */
  lemma NullContextIsNoOp(sha1: Sha1, key: string, value: seq<byte>)
    ensures Set(sha1, None, key, value) == Effect(None, None)
    ensures Get(sha1, None, key) == None
    ensures Delete(sha1, None, key) == Effect(None, None)
  {
  }

  /** What `set` wrote, `get` reads back: the same bytes, empty or not. */
  lemma SetThenGet(sha1: Sha1, context: Option<Dir>, key: string, value: seq<byte>)
    requires context.Some?
    ensures Get(sha1, Set(sha1, context, key, value).context, key) == Some(value)
  {
  }

  /** A second `set` on the same key truncates: only the last value survives. */
  lemma SetOverwrites(sha1: Sha1, context: Option<Dir>, key: string, v1: seq<byte>, v2: seq<byte>)
    ensures Set(sha1, Set(sha1, context, key, v1).context, key, v2) == Set(sha1, context, key, v2)
  {
    if context.Some? {
      var once := Set(sha1, context, key, v2).context.value;
      var twice := Set(sha1, Set(sha1, context, key, v1).context, key, v2).context.value;
      assert once.Keys == twice.Keys;
      assert forall name | name in once :: once[name] == twice[name];
      assert once == twice;
    }
  }

  /** `set` leaves every key with a different digest as it was. */
  lemma SetFrame(sha1: Sha1, context: Option<Dir>, key: string, value: seq<byte>, other: string)
    requires sha1(other) != sha1(key)
    ensures Get(sha1, Set(sha1, context, key, value).context, other) == Get(sha1, context, other)
  {
    KeyCollision(sha1, key, other);
  }

  /** After `delete`, `get` finds nothing, whether or not the key had been set. */
  lemma DeleteThenGet(sha1: Sha1, context: Option<Dir>, key: string)
    ensures Get(sha1, Delete(sha1, context, key).context, key) == None
  {
  }

  /** `delete` of an absent key is a no-op that returns false. */
  lemma DeleteAbsent(sha1: Sha1, context: Option<Dir>, key: string)
    requires context.Some? && Get(sha1, context, key) == None
    ensures Delete(sha1, context, key) == Effect(context, Some(false))
  {
    assert context.value - {Key(sha1, key)} == context.value;
  }

  /** Deleting twice leaves what deleting once left; the second call reports no file. */
  lemma DeleteIdempotent(sha1: Sha1, context: Option<Dir>, key: string)
    requires context.Some?
    ensures var once := Delete(sha1, context, key);
      Delete(sha1, once.context, key) == Effect(once.context, Some(false))
  {
    var once := Delete(sha1, context, key);
    DeleteAbsent(sha1, once.context, key);
  }

  /** `delete` leaves every key with a different digest as it was. */
  lemma DeleteFrame(sha1: Sha1, context: Option<Dir>, key: string, other: string)
    requires sha1(other) != sha1(key)
    ensures Get(sha1, Delete(sha1, context, key).context, other) == Get(sha1, context, other)
  {
    KeyCollision(sha1, key, other);
  }
}
