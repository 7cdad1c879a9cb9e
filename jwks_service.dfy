/** The public-key registry (Service/JwksService.java). The JWK Set
    document (section 5 of RFC 7517) arrives already parsed: its `keys`
    member is a sequence of entries whose `kid`, `n` and `e` members (RSA
    parameters, section 6.3.1 of RFC 7518) may each be missing. Building an
    RSA key from `n` and `e` is an opaque function that may fail. */
module KeyRegistry {
  import opened Wrappers

  datatype RsaPublicKey = RsaPublicKey(modulus: nat, exponent: nat)

  datatype JwkEntry = JwkEntry(kid: Option<string>, n: Option<string>, e: Option<string>)

  /** What one fetch of the document yields: a fetch or parse failure, a
      null body, no `keys` array, or the entries of that array. */
  datatype JwksDocument = Unavailable | NullBody | MissingKeys | KeySet(entries: seq<JwkEntry>)

  type KeyBuilder = (string, string) -> Option<RsaPublicKey>

  /** An entry with all three members; the others are skipped. */
  predicate Usable(e: JwkEntry) {
    e.kid.Some? && e.n.Some? && e.e.Some?
  }

  /** The kids of the usable entries. */
  function UsableKids(es: seq<JwkEntry>): set<string> {
    set j | 0 <= j < |es| && Usable(es[j]) :: es[j].kid.value
  }

  /** One step of the loop over the entries. */
  function Put(tmp: map<string, RsaPublicKey>, e: JwkEntry, build: KeyBuilder): Option<map<string, RsaPublicKey>> {
    if !Usable(e) then Some(tmp)
    else
      match build(e.n.value, e.e.value)
      case None => None
      case Some(k) => Some(tmp[e.kid.value := k])
  }

  /** The map the loop builds from `es`, or none when a key build throws. */
  function Collect(es: seq<JwkEntry>, build: KeyBuilder): (r: Option<map<string, RsaPublicKey>>)
    ensures r.Some? ==> r.value.Keys == UsableKids(es)
    decreases |es|
  {
    if |es| == 0 then Some(map[])
    else
      var prefix := es[..|es| - 1];
      var last := es[|es| - 1];
      match Collect(prefix, build)
      case None => None
      case Some(tmp) =>
        assert UsableKids(es) == UsableKids(prefix) + (if Usable(last) then {last.kid.value} else {}) by {
          assert forall j :: 0 <= j < |prefix| ==> es[j] == prefix[j];
        }
        Put(tmp, last, build)
  }

  /** The cache after one refresh: wholly replaced by a non-empty new map,
      or left as it was. */
  function RefreshedCache(cache: map<string, RsaPublicKey>, doc: JwksDocument, build: KeyBuilder): (r: map<string, RsaPublicKey>)
    ensures r == cache || (doc.KeySet? && Collect(doc.entries, build) == Some(r) && r != map[])
    ensures doc.KeySet? && Collect(doc.entries, build).Some? && Collect(doc.entries, build).value != map[] ==>
      r == Collect(doc.entries, build).value
    ensures !doc.KeySet? || Collect(doc.entries, build).None? ==> r == cache
  {
    match doc
    case KeySet(es) =>
      (match Collect(es, build)
       case Some(tmp) => if tmp != map[] then tmp else cache
       case None => cache)
    case _ => cache
  }

  // ---- Properties -------------------------------------------------------

  /** A failure on the prefix survives to the whole sequence. */
  lemma {:induction false} AbortPersists(es: seq<JwkEntry>, build: KeyBuilder, i: nat)
    requires i <= |es|
    requires Collect(es[..i], build).None?
    ensures Collect(es, build).None?
    decreases |es| - i
  {
    if i < |es| {
      assert es[..i + 1][..i] == es[..i];
      AbortPersists(es, build, i + 1);
    } else {
      assert es[..i] == es;
    }
  }

  /** One usable entry whose key cannot be built aborts the whole refresh,
      whatever the other entries hold. */
  lemma BuildFailureAborts(cache: map<string, RsaPublicKey>, es: seq<JwkEntry>, build: KeyBuilder, j: nat)
    requires j < |es| && Usable(es[j]) && build(es[j].n.value, es[j].e.value).None?
    ensures Collect(es, build).None?
    ensures RefreshedCache(cache, KeySet(es), build) == cache
  {
    var p := es[..j + 1];
    assert p[..|p| - 1] == es[..j];
    assert Collect(p, build).None?;
    AbortPersists(es, build, j + 1);
  }

  /** Conversely, the refresh aborts only because some usable entry's key
      could not be built. */
  lemma {:induction false} AbortHasCause(es: seq<JwkEntry>, build: KeyBuilder)
    requires Collect(es, build).None?
    ensures exists j :: 0 <= j < |es| && Usable(es[j]) && build(es[j].n.value, es[j].e.value).None?
    decreases |es|
  {
    var prefix := es[..|es| - 1];
    if Collect(prefix, build).None? {
      AbortHasCause(prefix, build);
      var j :| 0 <= j < |prefix| && Usable(prefix[j]) && build(prefix[j].n.value, prefix[j].e.value).None?;
      assert es[j] == prefix[j];
    } else {
      assert Usable(es[|es| - 1]) && build(es[|es| - 1].n.value, es[|es| - 1].e.value).None?;
    }
  }

  /** When a kid appears more than once, the last usable entry for it
      supplies the key. */
  lemma {:induction false} LastDuplicateWins(es: seq<JwkEntry>, build: KeyBuilder, j: nat)
    requires Collect(es, build).Some?
    requires j < |es| && Usable(es[j])
    requires forall l :: j < l < |es| && Usable(es[l]) ==> es[l].kid != es[j].kid
    ensures build(es[j].n.value, es[j].e.value).Some?
    ensures Collect(es, build).value[es[j].kid.value] == build(es[j].n.value, es[j].e.value).value
    decreases |es|
  {
    var prefix := es[..|es| - 1];
    if j < |es| - 1 {
      assert es[j] == prefix[j];
      LastDuplicateWins(prefix, build, j);
    }
  }

  /** A refresh that builds at least one key replaces the cache by the new
      map: exactly the usable kids of the new document, each with its newly
      built key, so kids it no longer lists are dropped and a key rotated
      under the same kid is replaced. */
  lemma RefreshKeepsExactlyNewKids(cache: map<string, RsaPublicKey>, es: seq<JwkEntry>, build: KeyBuilder)
    requires Collect(es, build).Some? && UsableKids(es) != {}
    ensures RefreshedCache(cache, KeySet(es), build) == Collect(es, build).value
    ensures RefreshedCache(cache, KeySet(es), build).Keys == UsableKids(es)
  {
  }

  /** A document without a single usable entry leaves the cache intact. */
  lemma NoUsableEntryKeepsCache(cache: map<string, RsaPublicKey>, es: seq<JwkEntry>, build: KeyBuilder)
    requires forall j :: 0 <= j < |es| ==> !Usable(es[j])
    ensures RefreshedCache(cache, KeySet(es), build) == cache
  {
    assert UsableKids(es) == {};
  }

  /** The registry: a cache replaced wholesale by each successful
      refresh. */
  class JwksService {
    var keyCache: map<string, RsaPublicKey>

    constructor ()
      ensures keyCache == map[]
    {
      keyCache := map[];
    }

    /** getKey(kid): the key cached under `kid`, otherwise any cached key,
        none only when the cache is empty. */
    method GetKey(kid: Option<string>) returns (r: Option<RsaPublicKey>)
      ensures kid.Some? && kid.value in keyCache ==> r == Some(keyCache[kid.value])
      ensures r.None? <==> keyCache == map[]
      ensures r.Some? ==> r.value in keyCache.Values
    {
      if kid.Some? && kid.value in keyCache {
        return Some(keyCache[kid.value]);
      }
      if keyCache.Keys == {} {
        return None;
      }
      var first :| first in keyCache;
      r := Some(keyCache[first]);
    }

    /** fetchAndCacheKeys: build every usable entry's key into a fresh map,
        then replace the cache with it when it is not empty. */
    method FetchAndCacheKeys(doc: JwksDocument, build: KeyBuilder)
      modifies this
      ensures keyCache == RefreshedCache(old(keyCache), doc, build)
    {
      if !doc.KeySet? {
        return;
      }
      var keysNode := doc.entries;
      var tmp: map<string, RsaPublicKey> := map[];
      var i := 0;
      while i < |keysNode|
        invariant 0 <= i <= |keysNode|
        invariant Collect(keysNode[..i], build) == Some(tmp)
        invariant keyCache == old(keyCache)
      {
        var keyNode := keysNode[i];
        assert keysNode[..i + 1][..i] == keysNode[..i];
        if keyNode.kid.None? || keyNode.n.None? || keyNode.e.None? {
          i := i + 1;
          continue;
        }
        var publicKey := build(keyNode.n.value, keyNode.e.value);
        if publicKey.None? {
          AbortPersists(keysNode, build, i + 1);
          return;
        }
        tmp := tmp[keyNode.kid.value := publicKey.value];
        i := i + 1;
      }
      assert keysNode[..i] == keysNode;
      if tmp != map[] {
        keyCache := map[];
        keyCache := keyCache + tmp;
      }
    }
  }
}
