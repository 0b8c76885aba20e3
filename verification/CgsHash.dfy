// The self-excluding canonical hash of a CGS export and the sealing of a
// document with it.

module CgsHash {
  import opened Texts
  import opened Sorting
  import opened Json
  import opened JsonText
  import opened JsonDecoder
  import opened Wrappers

  // The two primitives whose internals are not modelled: `round(x, 6)` on float
  // tokens and the SHA-256 hex digest of an ASCII text.
  datatype Platform = Platform(round6: string -> string, sha256: string -> string)

  predicate IsHex(c: int) {
    '0' as int <= c <= '9' as int || 'a' as int <= c <= 'f' as int
  }

  /** `HASH_RE.fullmatch`. */
  predicate IsDigest(t: Text) {
    |t| == 64 && forall i | 0 <= i < |t| :: IsHex(t[i])
  }

  ghost predicate DigestOf(p: Platform, s: string) {
    IsDigest(Lit(p.sha256(s)))
  }

  // Rounding maps float tokens to float tokens and is idempotent; a digest is
  // 64 lowercase hex characters.
  ghost predicate Sound(p: Platform) {
    && (forall t :: FloatToken(t) ==> FloatToken(p.round6(t)))
    && (forall t :: p.round6(p.round6(t)) == p.round6(t))
    && (forall s :: DigestOf(p, s))
  }

  lemma DigestShape(p: Platform, s: string)
    requires Sound(p)
    ensures IsDigest(Lit(p.sha256(s)))
  {
    assert DigestOf(p, s);
  }

  const METADATA := Lit("metadata")
  const CGS_HASH := Lit("cgs_hash")

  /** `normalise_floats`. */
  function NormaliseFloats(p: Platform, v: Json): Json {
    Rebuild(v, p.round6)
  }

  /** The document without `metadata.cgs_hash`. */
  function Strip(cgs: Json): Json
    requires cgs.Obj?
  {
    var md := Lookup(cgs.members, METADATA);
    if md.Obj? then Obj(SetKey(cgs.members, METADATA, Obj(RemoveKey(md.members, CGS_HASH)))) else cgs
  }

  /** The text that is hashed. */
  function HashedText(p: Platform, cgs: Json): string
    requires cgs.Obj?
  {
    CanonicalJson(NormaliseFloats(p, Strip(cgs)))
  }

  /** `compute_cgs_hash`. */
  function ComputeHash(p: Platform, cgs: Json): string
    requires cgs.Obj?
  {
    p.sha256(HashedText(p, cgs))
  }

  /** The document with `metadata.cgs_hash` set to h. */
  function Declare(cgs: Json, h: Json): (r: Json)
    requires cgs.Obj? && Lookup(cgs.members, METADATA).Obj?
    ensures r.Obj?
  {
    Obj(SetKey(cgs.members, METADATA, Obj(SetKey(Lookup(cgs.members, METADATA).members, CGS_HASH, h))))
  }

  function Seal(p: Platform, cgs: Json): Json
    requires cgs.Obj? && Lookup(cgs.members, METADATA).Obj?
  {
    Declare(cgs, Str(Lit(ComputeHash(p, cgs))))
  }

  // ---- Setting and removing keys ----

  lemma {:induction false} RemoveAfterSet(ms: seq<Member>, k: Text, v: Json)
    requires DistinctKeys(ms)
    ensures RemoveKey(SetKey(ms, k, v), k) == RemoveKey(ms, k)
  {
    if ms != [] && ms[0].key != k {
      RemoveAfterSet(ms[1..], k, v);
    }
  }

  lemma {:induction false} SetAfterSet(ms: seq<Member>, k: Text, v: Json, w: Json)
    ensures SetKey(SetKey(ms, k, v), k, w) == SetKey(ms, k, w)
    ensures Lookup(SetKey(ms, k, v), k) == v
    ensures HasKey(SetKey(ms, k, v), k)
  {
    if ms != [] && ms[0].key != k {
      SetAfterSet(ms[1..], k, v, w);
      var r := SetKey(ms, k, v);
      var i :| 0 <= i < |r[1..]| && r[1..][i].key == k;
      assert r[i + 1].key == k;
    } else {
      assert SetKey(ms, k, v)[0].key == k;
    }
  }

  lemma {:induction false} SetToPresent(ms: seq<Member>, k: Text)
    requires HasKey(ms, k)
    ensures SetKey(ms, k, Lookup(ms, k)) == ms
  {
    if ms[0].key != k {
      var i :| 0 <= i < |ms| && ms[i].key == k;
      assert ms[1..][i - 1].key == k;
      SetToPresent(ms[1..], k);
    }
    assert ms == [ms[0]] + ms[1..];
  }

  lemma {:induction false} LookupOther(ms: seq<Member>, k: Text, j: Text, v: Json)
    requires j != k
    ensures Lookup(SetKey(ms, k, v), j) == Lookup(ms, j) == Lookup(RemoveKey(ms, k), j)
    ensures HasKey(SetKey(ms, k, v), j) == HasKey(ms, j) == HasKey(RemoveKey(ms, k), j)
  {
    HasKeyUnfold(ms, j);
    HasKeyUnfold(SetKey(ms, k, v), j);
    HasKeyUnfold(RemoveKey(ms, k), j);
    if ms != [] {
      LookupOther(ms[1..], k, j, v);
    }
  }

  lemma {:induction false} RemovedMembers(ms: seq<Member>, k: Text)
    requires DistinctKeys(ms)
    ensures var r := RemoveKey(ms, k);
      && DistinctKeys(r) && (forall m :: m in r <==> m in ms && m.key != k)
      && |r| == |ms| - (if HasKey(ms, k) then 1 else 0)
  {
    HasKeyUnfold(ms, k);
    if ms != [] {
      RemovedMembers(ms[1..], k);
      assert ms == [ms[0]] + ms[1..];
      var r := RemoveKey(ms[1..], k);
      forall i | 0 <= i < |r| ensures r[i].key != ms[0].key {
        assert r[i] in r;
      }
      if ms[0].key == k {
        assert !HasKey(ms[1..], k);
      }
    }
  }

  lemma {:induction false} SetMembers(ms: seq<Member>, k: Text, v: Json)
    requires DistinctKeys(ms)
    ensures var r := SetKey(ms, k, v);
      && DistinctKeys(r) && (forall m :: m in r <==> m == Member(k, v) || (m in ms && m.key != k))
      && |r| == |ms| + (if HasKey(ms, k) then 0 else 1)
  {
    SetKeyDistinct(ms, k, v);
    HasKeyUnfold(ms, k);
    if ms != [] {
      assert ms == [ms[0]] + ms[1..];
      if ms[0].key != k {
        SetMembers(ms[1..], k, v);
      }
    }
  }

  // ---- The hash ignores the declared hash ----

  lemma StripIgnoresDeclared(cgs: Json, h: Json)
    requires cgs.Obj? && Dicts(cgs) && Lookup(cgs.members, METADATA).Obj?
    ensures Strip(Declare(cgs, h)) == Strip(cgs)
  {
    var md := Lookup(cgs.members, METADATA);
    if !HasKey(cgs.members, METADATA) {
      MissingKey(cgs.members, METADATA);
      assert false;
    }
    LookupIsMember(cgs.members, METADATA);
    assert Dicts(md);
    RemoveAfterSet(md.members, CGS_HASH, h);
    var with := Obj(SetKey(md.members, CGS_HASH, h));
    SetAfterSet(cgs.members, METADATA, with, Obj(RemoveKey(md.members, CGS_HASH)));
  }

  /** Whatever `metadata.cgs_hash` holds, the computed hash is the same. */
  lemma HashIgnoresDeclared(p: Platform, cgs: Json, h: Json)
    requires cgs.Obj? && Dicts(cgs) && Lookup(cgs.members, METADATA).Obj?
    ensures ComputeHash(p, Declare(cgs, h)) == ComputeHash(p, cgs)
  {
    StripIgnoresDeclared(cgs, h);
  }

  // ---- The hash ignores key order ----

  lemma SameMembersByKey(ms: seq<Member>, ns: seq<Member>, k: Text)
    requires DistinctKeys(ms) && DistinctKeys(ns) && Same(Obj(ms), Obj(ns))
    ensures HasKey(ms, k) <==> HasKey(ns, k)
    ensures HasKey(ms, k) ==> Same(Lookup(ms, k), Lookup(ns, k))
  {
    var a := seq(|ms|, i requires 0 <= i < |ms| => ms[i].key);
    var b := seq(|ns|, i requires 0 <= i < |ns| => ns[i].key);
    forall i | 0 <= i < |a| ensures a[i] in b {
      var j :| 0 <= j < |ns| && ns[j].key == ms[i].key;
      assert b[j] == a[i];
    }
    Pigeonhole(a, b);
    if HasKey(ns, k) {
      var j :| 0 <= j < |ns| && ns[j].key == k;
      assert b[j] in a;
      var i :| 0 <= i < |a| && a[i] == k;
      assert ms[i].key == k;
    }
    if HasKey(ms, k) {
      var i :| 0 <= i < |ms| && ms[i].key == k;
      LookupFinds(ms, i);
      assert HasKey(ns, ms[i].key);
    }
  }

  lemma RemoveKeepsSame(ms: seq<Member>, ns: seq<Member>, k: Text)
    requires DistinctKeys(ms) && DistinctKeys(ns) && Same(Obj(ms), Obj(ns))
    ensures Same(Obj(RemoveKey(ms, k)), Obj(RemoveKey(ns, k)))
  {
    var r, q := RemoveKey(ms, k), RemoveKey(ns, k);
    RemovedMembers(ms, k);
    RemovedMembers(ns, k);
    SameMembersByKey(ms, ns, k);
    forall i | 0 <= i < |r| ensures HasKey(q, r[i].key) && Same(r[i].value, Lookup(q, r[i].key)) {
      assert r[i] in r;
      var j :| 0 <= j < |ms| && ms[j] == r[i];
      LookupFinds(ms, j);
      SameMembersByKey(ms, ns, r[i].key);
      LookupOther(ns, k, r[i].key, Null);
    }
  }

  lemma SetKeepsSame(ms: seq<Member>, ns: seq<Member>, k: Text, v: Json, w: Json)
    requires DistinctKeys(ms) && DistinctKeys(ns) && Same(Obj(ms), Obj(ns)) && Same(v, w)
    ensures Same(Obj(SetKey(ms, k, v)), Obj(SetKey(ns, k, w)))
  {
    var r, q := SetKey(ms, k, v), SetKey(ns, k, w);
    SetMembers(ms, k, v);
    SetMembers(ns, k, w);
    SameMembersByKey(ms, ns, k);
    forall i | 0 <= i < |r| ensures HasKey(q, r[i].key) && Same(r[i].value, Lookup(q, r[i].key)) {
      assert r[i] in r;
      if r[i].key == k {
        SetAfterSet(ns, k, w, w);
      } else {
        var j :| 0 <= j < |ms| && ms[j] == r[i];
        LookupFinds(ms, j);
        SameMembersByKey(ms, ns, r[i].key);
        LookupOther(ns, k, r[i].key, w);
      }
    }
  }

  lemma StripKeepsDicts(cgs: Json)
    requires cgs.Obj? && Dicts(cgs)
    ensures Dicts(Strip(cgs))
  {
    var md := Lookup(cgs.members, METADATA);
    if md.Obj? {
      if !HasKey(cgs.members, METADATA) {
        MissingKey(cgs.members, METADATA);
        assert false;
      }
      LookupIsMember(cgs.members, METADATA);
      RemovedMembers(md.members, CGS_HASH);
      SetMembers(cgs.members, METADATA, Obj(RemoveKey(md.members, CGS_HASH)));
    }
  }

  lemma StripKeepsSame(a: Json, b: Json)
    requires a.Obj? && Dicts(a) && Dicts(b) && Same(a, b)
    ensures Same(Strip(a), Strip(b))
  {
    SameMembersByKey(a.members, b.members, METADATA);
    if HasKey(a.members, METADATA) {
      LookupIsMember(a.members, METADATA);
      LookupIsMember(b.members, METADATA);
      var m, n := Lookup(a.members, METADATA), Lookup(b.members, METADATA);
      assert Dicts(m) && Dicts(n);
      if m.Obj? {
        RemoveKeepsSame(m.members, n.members, CGS_HASH);
        SetKeepsSame(a.members, b.members, METADATA,
                     Obj(RemoveKey(m.members, CGS_HASH)), Obj(RemoveKey(n.members, CGS_HASH)));
      }
    } else {
      MissingKey(a.members, METADATA);
      MissingKey(b.members, METADATA);
    }
  }

  /** Reordering keys, at any depth, does not change the hash. */
  lemma HashIgnoresKeyOrder(p: Platform, a: Json, b: Json)
    requires a.Obj? && Dicts(a) && Dicts(b) && Same(a, b)
    ensures b.Obj? && ComputeHash(p, a) == ComputeHash(p, b)
  {
    StripKeepsSame(a, b);
    StripKeepsDicts(a);
    StripKeepsDicts(b);
    SameRebuildsEqual(Strip(a), Strip(b), p.round6);
  }

  // ---- The hash ignores earlier float normalisation ----

  lemma NormaliseIdempotent(p: Platform, v: Json)
    requires Sound(p)
    ensures NormaliseFloats(p, NormaliseFloats(p, v)) == NormaliseFloats(p, v)
  {
    RebuildIsSorted(v, p.round6);
    RebuildFixesFloats(v, p.round6, p.round6);
    RebuildFixpoint(Rebuild(v, p.round6), p.round6);
  }

  // Lookup in a rebuilt object finds the rebuilt value.
  lemma RebuiltLookup(ms: seq<Member>, k: Text, f: string -> string)
    requires DistinctKeys(ms)
    ensures var r := SortBy(RebuildMembers(ms, f), KeyLe);
      && (HasKey(r, k) <==> HasKey(ms, k))
      && Lookup(r, k) == Rebuild(Lookup(ms, k), f)
  {
    var r := SortBy(RebuildMembers(ms, f), KeyLe);
    RebuiltMembers(ms, f);
    RebuiltKeysDistinct(ms, f);
    if HasKey(ms, k) {
      var i :| 0 <= i < |ms| && ms[i].key == k;
      LookupFinds(ms, i);
      var m := Member(k, Rebuild(ms[i].value, f));
      assert m in r;
      var j :| 0 <= j < |r| && r[j] == m;
      LookupFinds(r, j);
    } else {
      forall j | 0 <= j < |r| ensures r[j].key != k {
        assert r[j] in r;
      }
      MissingKey(ms, k);
      MissingKey(r, k);
    }
  }

  lemma RebuildCommutesWithRemove(ms: seq<Member>, k: Text, f: string -> string)
    requires DistinctKeys(ms)
    ensures RemoveKey(SortBy(RebuildMembers(ms, f), KeyLe), k) == SortBy(RebuildMembers(RemoveKey(ms, k), f), KeyLe)
  {
    var s := SortBy(RebuildMembers(ms, f), KeyLe);
    var r, q := RemoveKey(s, k), SortBy(RebuildMembers(RemoveKey(ms, k), f), KeyLe);
    RebuiltMembers(ms, f);
    RebuiltKeysDistinct(ms, f);
    RemovedMembers(ms, k);
    RemovedMembers(s, k);
    RebuiltMembers(RemoveKey(ms, k), f);
    RebuiltKeysDistinct(RemoveKey(ms, k), f);
    RemoveKeepsSorted(s, k);
    RebuiltLookup(ms, k, f);
    forall m ensures m in r <==> m in q {
      if m in r {
        var i :| 0 <= i < |ms| && m == Member(ms[i].key, Rebuild(ms[i].value, f));
        assert ms[i] in RemoveKey(ms, k);
      }
      if m in q {
        var u := RemoveKey(ms, k);
        var i :| 0 <= i < |u| && m == Member(u[i].key, Rebuild(u[i].value, f));
        assert u[i] in u;
        var j :| 0 <= j < |ms| && ms[j] == u[i];
        assert m == Member(ms[j].key, Rebuild(ms[j].value, f));
      }
    }
    SortedMembersUnique(r, q);
  }

  lemma {:induction false} RemoveKeepsSorted(ms: seq<Member>, k: Text)
    requires DistinctKeys(ms) && Sorted(ms, KeyLe)
    ensures Sorted(RemoveKey(ms, k), KeyLe)
  {
    if ms != [] {
      RemoveKeepsSorted(ms[1..], k);
      RemovedMembers(ms[1..], k);
      var r := RemoveKey(ms[1..], k);
      forall i | 0 <= i < |r| ensures KeyLe(ms[0], r[i]) {
        assert r[i] in r;
      }
    }
  }

  lemma {:induction false} ResetKeepsSorted(ms: seq<Member>, k: Text, v: Json)
    requires Sorted(ms, KeyLe) && HasKey(ms, k)
    ensures Sorted(SetKey(ms, k, v), KeyLe)
  {
    HasKeyUnfold(ms, k);
    if ms[0].key != k {
      ResetKeepsSorted(ms[1..], k, v);
      var r := SetKey(ms[1..], k, v);
      ResetKeys(ms[1..], k, v);
      forall i | 0 <= i < |r| ensures KeyLe(ms[0], r[i]) {
        assert KeyLe(ms[0], ms[1..][i]);
      }
    } else {
      forall i | 0 < i < |ms| ensures KeyLe(Member(k, v), ms[i]) {
        assert KeyLe(ms[0], ms[i]);
      }
    }
  }

  lemma {:induction false} ResetKeys(ms: seq<Member>, k: Text, v: Json)
    requires HasKey(ms, k)
    ensures var r := SetKey(ms, k, v); |r| == |ms| && forall i :: 0 <= i < |r| ==> r[i].key == ms[i].key
  {
    HasKeyUnfold(ms, k);
    if ms[0].key != k {
      ResetKeys(ms[1..], k, v);
    }
  }

  lemma RebuildCommutesWithReset(ms: seq<Member>, k: Text, v: Json, f: string -> string)
    requires DistinctKeys(ms) && HasKey(ms, k)
    ensures SetKey(SortBy(RebuildMembers(ms, f), KeyLe), k, Rebuild(v, f))
         == SortBy(RebuildMembers(SetKey(ms, k, v), f), KeyLe)
  {
    var s := SortBy(RebuildMembers(ms, f), KeyLe);
    var u := SetKey(ms, k, v);
    var r, q := SetKey(s, k, Rebuild(v, f)), SortBy(RebuildMembers(u, f), KeyLe);
    RebuiltMembers(ms, f);
    RebuiltKeysDistinct(ms, f);
    RebuiltLookup(ms, k, f);
    SetMembers(ms, k, v);
    SetMembers(s, k, Rebuild(v, f));
    RebuiltMembers(u, f);
    RebuiltKeysDistinct(u, f);
    ResetKeepsSorted(s, k, Rebuild(v, f));
    forall m ensures m in r <==> m in q {
      if m in r {
        if m == Member(k, Rebuild(v, f)) {
          assert Member(k, v) in u;
        } else {
          var i :| 0 <= i < |ms| && m == Member(ms[i].key, Rebuild(ms[i].value, f));
          assert ms[i] in u;
        }
      }
      if m in q {
        var i :| 0 <= i < |u| && m == Member(u[i].key, Rebuild(u[i].value, f));
        assert u[i] in u;
        if u[i] != Member(k, v) {
          var j :| 0 <= j < |ms| && ms[j] == u[i];
          assert m == Member(ms[j].key, Rebuild(ms[j].value, f));
        }
      }
    }
    SortedMembersUnique(r, q);
  }

  lemma StripCommutesWithRebuild(cgs: Json, f: string -> string)
    requires cgs.Obj? && Dicts(cgs)
    ensures Strip(Rebuild(cgs, f)) == Rebuild(Strip(cgs), f)
  {
    var ms := cgs.members;
    var md := Lookup(ms, METADATA);
    RebuiltLookup(ms, METADATA, f);
    if md.Obj? {
      if !HasKey(ms, METADATA) {
        MissingKey(ms, METADATA);
        assert false;
      }
      LookupIsMember(ms, METADATA);
      assert Dicts(md);
      RebuildCommutesWithRemove(md.members, CGS_HASH, f);
      RebuildCommutesWithReset(ms, METADATA, Obj(RemoveKey(md.members, CGS_HASH)), f);
    }
  }

  /** Normalising the floats of a document beforehand does not change its hash. */
  lemma HashIgnoresNormalisation(p: Platform, cgs: Json)
    requires Sound(p) && cgs.Obj? && Dicts(cgs)
    ensures ComputeHash(p, NormaliseFloats(p, cgs)) == ComputeHash(p, cgs)
  {
    StripCommutesWithRebuild(cgs, p.round6);
    NormaliseIdempotent(p, Strip(cgs));
  }

  // ---- The canonical text decides equality ----

  /** Canonical texts of normalised values are equal exactly when the values are equal up to key order. */
  lemma CanonicalTextDecidesEquality(p: Platform, a: Json, b: Json)
    requires Sound(p) && Held(a) && Held(b) && PairFreeTexts(a) && PairFreeTexts(b)
    ensures CanonicalJson(NormaliseFloats(p, a)) == CanonicalJson(NormaliseFloats(p, b))
       <==> Same(NormaliseFloats(p, a), NormaliseFloats(p, b))
  {
    var x, y := NormaliseFloats(p, a), NormaliseFloats(p, b);
    RebuildKeepsDicts(a, p.round6);
    RebuildKeepsDicts(b, p.round6);
    RebuildKeepsTokens(a, p.round6);
    RebuildKeepsTokens(b, p.round6);
    RebuildKeepsPairs(a, p.round6);
    RebuildKeepsPairs(b, p.round6);
    CanonicalJsonLoadsIff(x);
    CanonicalJsonLoadsIff(y);
    SortKeysIsCanonical(x, y);
  }

  lemma StripKeepsHeld(cgs: Json)
    requires cgs.Obj? && Held(cgs) && PairFreeTexts(cgs)
    ensures Held(Strip(cgs)) && PairFreeTexts(Strip(cgs))
  {
    StripKeepsDicts(cgs);
    var md := Lookup(cgs.members, METADATA);
    if md.Obj? {
      if !HasKey(cgs.members, METADATA) {
        MissingKey(cgs.members, METADATA);
        assert false;
      }
      LookupIsMember(cgs.members, METADATA);
      assert FloatTokens(md) && PairFreeTexts(md);
      assert Member(METADATA, md) in cgs.members && PairFree(METADATA);
      RemovedMembers(md.members, CGS_HASH);
      SetMembers(cgs.members, METADATA, Obj(RemoveKey(md.members, CGS_HASH)));
    }
  }

  // ---- What is hashed, key by key ----

  /** `normalise_floats` rounds every float, sorts the keys of every object, and changes nothing else. */
  lemma NormalisedParts(p: Platform, v: Json)
    requires Dicts(v)
    ensures var r := NormaliseFloats(p, v);
      match v
      case Float(t) => r == Float(p.round6(t))
      case Arr(items) =>
        r.Arr? && |r.items| == |items| && forall i :: 0 <= i < |items| ==> r.items[i] == NormaliseFloats(p, items[i])
      case Obj(ms) =>
        r.Obj? && DistinctKeys(r.members) && Sorted(r.members, KeyLe) && NormalisedByKey(p, ms, r.members)
      case _ => r == v
  {
    if v.Obj? {
      RebuiltMembers(v.members, p.round6);
      RebuiltKeysDistinct(v.members, p.round6);
      forall k ensures NormalisedUnder(p, v.members, NormaliseFloats(p, v).members, k) {
        RebuiltLookup(v.members, k, p.round6);
      }
    }
  }

  /** The keys are the same, and each holds the normalised value. */
  ghost predicate NormalisedByKey(p: Platform, ms: seq<Member>, ns: seq<Member>) {
    forall k :: NormalisedUnder(p, ms, ns, k)
  }

  ghost predicate NormalisedUnder(p: Platform, ms: seq<Member>, ns: seq<Member>, k: Text) {
    (HasKey(ns, k) <==> HasKey(ms, k)) && Lookup(ns, k) == NormaliseFloats(p, Lookup(ms, k))
  }

  // v holds the document as it is hashed: the same keys, the normalised values,
  // and of an object under `metadata` everything but `cgs_hash`.
  ghost predicate HashedAs(p: Platform, cgs: Json, v: Json)
    requires cgs.Obj?
  {
    && v.Obj?
    && (HasKey(v.members, Lit("metadata")) <==> HasKey(cgs.members, Lit("metadata")))
    && (forall k :: k != Lit("metadata") ==> NormalisedUnder(p, cgs.members, v.members, k))
    && MetadataHashedAs(p, Lookup(cgs.members, Lit("metadata")), Lookup(v.members, Lit("metadata")))
  }

  ghost predicate MetadataHashedAs(p: Platform, md: Json, v: Json) {
    if !md.Obj? then v == NormaliseFloats(p, md)
    else
      && v.Obj? && !HasKey(v.members, Lit("cgs_hash"))
      && forall k :: k != Lit("cgs_hash") ==> NormalisedUnder(p, md.members, v.members, k)
  }

  lemma StripParts(cgs: Json)
    requires cgs.Obj? && Dicts(cgs)
    ensures Strip(cgs).Obj? && DistinctKeys(Strip(cgs).members)
    ensures forall k :: HasKey(Strip(cgs).members, k) <==> HasKey(cgs.members, k)
    ensures forall k :: k != METADATA ==> Lookup(Strip(cgs).members, k) == Lookup(cgs.members, k)
    ensures var md, sd := Lookup(cgs.members, METADATA), Lookup(Strip(cgs).members, METADATA);
      sd == if md.Obj? then Obj(RemoveKey(md.members, CGS_HASH)) else md
  {
    var md := Lookup(cgs.members, METADATA);
    StripKeepsDicts(cgs);
    if md.Obj? {
      if !HasKey(cgs.members, METADATA) {
        MissingKey(cgs.members, METADATA);
        assert false;
      }
      var sd := Obj(RemoveKey(md.members, CGS_HASH));
      SetAfterSet(cgs.members, METADATA, sd, sd);
      forall k | k != METADATA
        ensures HasKey(Strip(cgs).members, k) <==> HasKey(cgs.members, k)
        ensures Lookup(Strip(cgs).members, k) == Lookup(cgs.members, k) {
        LookupOther(cgs.members, METADATA, k, sd);
      }
    }
  }

  lemma MetadataIsDict(cgs: Json)
    requires cgs.Obj? && Dicts(cgs)
    ensures Dicts(Lookup(cgs.members, METADATA))
  {
    if HasKey(cgs.members, METADATA) {
      LookupIsMember(cgs.members, METADATA);
    } else {
      MissingKey(cgs.members, METADATA);
    }
  }

  lemma StrippedIsHashedAs(p: Platform, cgs: Json)
    requires cgs.Obj? && Dicts(cgs)
    ensures HashedAs(p, cgs, NormaliseFloats(p, Strip(cgs)))
  {
    var s, v := Strip(cgs), NormaliseFloats(p, Strip(cgs));
    var md := Lookup(cgs.members, METADATA);
    StripParts(cgs);
    StripKeepsDicts(cgs);
    NormalisedParts(p, s);
    assert NormalisedUnder(p, s.members, v.members, METADATA);
    forall k | k != METADATA ensures NormalisedUnder(p, cgs.members, v.members, k) {
      assert NormalisedUnder(p, s.members, v.members, k);
    }
    if md.Obj? {
      MetadataIsDict(cgs);
      StrippedMetadata(p, md.members);
    }
  }

  lemma StrippedMetadata(p: Platform, ms: seq<Member>)
    requires Dicts(Obj(ms))
    ensures var vd := NormaliseFloats(p, Obj(RemoveKey(ms, CGS_HASH)));
      && vd.Obj? && !HasKey(vd.members, CGS_HASH)
      && forall k :: k != CGS_HASH ==> NormalisedUnder(p, ms, vd.members, k)
  {
    var r := RemoveKey(ms, CGS_HASH);
    var vd := NormaliseFloats(p, Obj(r));
    RemovedMembers(ms, CGS_HASH);
    NormalisedParts(p, Obj(r));
    assert NormalisedUnder(p, r, vd.members, CGS_HASH);
    forall k | k != CGS_HASH ensures NormalisedUnder(p, ms, vd.members, k) {
      assert NormalisedUnder(p, r, vd.members, k);
      LookupOther(ms, CGS_HASH, k, Null);
    }
  }

  lemma HashedTextLoads(p: Platform, cgs: Json)
    requires Sound(p) && cgs.Obj? && Held(cgs) && PairFreeTexts(cgs)
    ensures Loads(HashedText(p, cgs)) == Some(NormaliseFloats(p, Strip(cgs)))
  {
    var s := Strip(cgs);
    StripKeepsHeld(cgs);
    RebuildKeepsDicts(s, p.round6);
    RebuildKeepsTokens(s, p.round6);
    RebuildKeepsPairs(s, p.round6);
    CanonicalJsonLoadsIff(NormaliseFloats(p, s));
    SortKeysOfRebuilt(s, p.round6);
  }

  /** The hashed text holds the document, key by key, without `metadata.cgs_hash` and with nothing else left out. */
  lemma HashedTextHoldsDocument(p: Platform, cgs: Json)
    requires Sound(p) && cgs.Obj? && Held(cgs) && PairFreeTexts(cgs)
    ensures Loads(HashedText(p, cgs)).Some? && HashedAs(p, cgs, Loads(HashedText(p, cgs)).value)
  {
    HashedTextLoads(p, cgs);
    StrippedIsHashedAs(p, cgs);
  }

  /** The two hold equal values, up to key order and rounding, under this key, or neither has it. */
  ghost predicate AgreeOn(p: Platform, ms: seq<Member>, ns: seq<Member>, k: Text) {
    (HasKey(ms, k) <==> HasKey(ns, k)) && NormaliseFloats(p, Lookup(ms, k)) == NormaliseFloats(p, Lookup(ns, k))
  }

  /** The documents agree on every key, and on every key of `metadata` but `cgs_hash`. */
  ghost predicate AgreeButForHash(p: Platform, a: Json, b: Json)
    requires a.Obj? && b.Obj?
  {
    && (HasKey(a.members, Lit("metadata")) <==> HasKey(b.members, Lit("metadata")))
    && (forall k :: k != Lit("metadata") ==> AgreeOn(p, a.members, b.members, k))
    && MetadataAgree(p, Lookup(a.members, Lit("metadata")), Lookup(b.members, Lit("metadata")))
  }

  ghost predicate MetadataAgree(p: Platform, m: Json, n: Json) {
    if m.Obj? && n.Obj? then forall k :: k != Lit("cgs_hash") ==> AgreeOn(p, m.members, n.members, k)
    else !m.Obj? && !n.Obj? && NormaliseFloats(p, m) == NormaliseFloats(p, n)
  }

  lemma SameHashedAgree(p: Platform, a: Json, b: Json, v: Json)
    requires a.Obj? && b.Obj? && HashedAs(p, a, v) && HashedAs(p, b, v)
    ensures AgreeButForHash(p, a, b)
  {
    var m, n := Lookup(a.members, Lit("metadata")), Lookup(b.members, Lit("metadata"));
    forall k | k != Lit("metadata") ensures AgreeOn(p, a.members, b.members, k) {
      assert NormalisedUnder(p, a.members, v.members, k) && NormalisedUnder(p, b.members, v.members, k);
    }
    assert NormaliseFloats(p, m).Obj? == m.Obj? && NormaliseFloats(p, n).Obj? == n.Obj?;
    if m.Obj? && n.Obj? {
      var vd := Lookup(v.members, Lit("metadata"));
      forall k | k != Lit("cgs_hash") ensures AgreeOn(p, m.members, n.members, k) {
        assert NormalisedUnder(p, m.members, vd.members, k) && NormalisedUnder(p, n.members, vd.members, k);
      }
    }
  }

  /** A normalised object: keys distinct and sorted, its `metadata` likewise. */
  ghost predicate InOrder(v: Json) {
    && v.Obj? && DistinctKeys(v.members) && Sorted(v.members, KeyLe)
    && var vd := Lookup(v.members, Lit("metadata"));
    vd.Obj? ==> DistinctKeys(vd.members) && Sorted(vd.members, KeyLe)
  }

  lemma AgreeingHashSame(p: Platform, a: Json, b: Json, v: Json, w: Json)
    requires a.Obj? && b.Obj? && HashedAs(p, a, v) && HashedAs(p, b, w) && InOrder(v) && InOrder(w)
    requires AgreeButForHash(p, a, b)
    ensures v == w
  {
    var m, n := Lookup(a.members, Lit("metadata")), Lookup(b.members, Lit("metadata"));
    var vd, wd := Lookup(v.members, Lit("metadata")), Lookup(w.members, Lit("metadata"));
    if m.Obj? {
      forall k
        ensures (HasKey(vd.members, k) <==> HasKey(wd.members, k)) && Lookup(vd.members, k) == Lookup(wd.members, k) {
        if k == Lit("cgs_hash") {
          MissingKey(vd.members, k);
          MissingKey(wd.members, k);
        } else {
          assert NormalisedUnder(p, m.members, vd.members, k) && NormalisedUnder(p, n.members, wd.members, k);
          assert AgreeOn(p, m.members, n.members, k);
        }
      }
      SortedByKeyUnique(vd.members, wd.members);
    }
    forall k ensures (HasKey(v.members, k) <==> HasKey(w.members, k)) && Lookup(v.members, k) == Lookup(w.members, k) {
      if k != Lit("metadata") {
        assert NormalisedUnder(p, a.members, v.members, k) && NormalisedUnder(p, b.members, w.members, k);
        assert AgreeOn(p, a.members, b.members, k);
      }
    }
    SortedByKeyUnique(v.members, w.members);
  }

  lemma StrippedInOrder(p: Platform, cgs: Json)
    requires cgs.Obj? && Dicts(cgs)
    ensures InOrder(NormaliseFloats(p, Strip(cgs)))
  {
    var v := NormaliseFloats(p, Strip(cgs));
    StripKeepsDicts(cgs);
    NormalisedParts(p, Strip(cgs));
    assert NormalisedUnder(p, Strip(cgs).members, v.members, METADATA);
    MetadataIsDict(Strip(cgs));
    NormalisedParts(p, Lookup(Strip(cgs).members, METADATA));
  }

  /** Short of a collision of these two texts, hashes agree exactly when all keys but `metadata.cgs_hash` do. */
  lemma HashDecidesEquality(p: Platform, a: Json, b: Json)
    requires Sound(p) && a.Obj? && b.Obj?
    requires Held(a) && Held(b) && PairFreeTexts(a) && PairFreeTexts(b)
    requires p.sha256(HashedText(p, a)) == p.sha256(HashedText(p, b)) ==> HashedText(p, a) == HashedText(p, b)
    ensures ComputeHash(p, a) == ComputeHash(p, b) <==> AgreeButForHash(p, a, b)
  {
    var v, w := NormaliseFloats(p, Strip(a)), NormaliseFloats(p, Strip(b));
    HashedTextLoads(p, a);
    HashedTextLoads(p, b);
    StrippedIsHashedAs(p, a);
    StrippedIsHashedAs(p, b);
    if v == w {
      SameHashedAgree(p, a, b, v);
    }
    if AgreeButForHash(p, a, b) {
      StrippedInOrder(p, a);
      StrippedInOrder(p, b);
      AgreeingHashSame(p, a, b, v, w);
    }
  }

  // ---- Sealing ----

  /** `metadata.get("cgs_hash", "")`. */
  function DeclaredHash(md: Json): Json
    requires md.Obj?
  {
    if HasKey(md.members, CGS_HASH) then Lookup(md.members, CGS_HASH) else Str([])
  }

  function Repeated(c: char, n: nat): Text {
    seq(n, _ => c as int)
  }

  /** `"0" * 64`. */
  const ZERO_DIGEST := Repeated('0', 64)

  predicate AllZeros(t: Text) {
    |t| == 64 && forall i :: 0 <= i < 64 ==> t[i] == '0' as int
  }

  lemma AllZerosIff(t: Text)
    ensures t == ZERO_DIGEST <==> AllZeros(t)
  {}

  predicate IsDraft(declared: Json) {
    declared == Str([]) || declared == Str(Lit("unresolved")) || declared == Str(ZERO_DIGEST)
  }

  /** The condition under which the strict hash check reports nothing. */
  predicate HashMatches(p: Platform, cgs: Json)
    requires cgs.Obj? && Lookup(cgs.members, METADATA).Obj?
  {
    && !IsDraft(DeclaredHash(Lookup(cgs.members, METADATA)))
    && DeclaredHash(Lookup(cgs.members, METADATA)) == Str(Lit(ComputeHash(p, cgs)))
  }

  /** The strict check accepts exactly the documents that sealing leaves alone (digest not all zeros). */
  lemma AcceptedIffSealed(p: Platform, cgs: Json)
    requires Sound(p) && cgs.Obj? && Dicts(cgs) && Lookup(cgs.members, METADATA).Obj?
    ensures HashMatches(p, cgs) <==> Seal(p, cgs) == cgs && Lit(ComputeHash(p, cgs)) != ZERO_DIGEST
  {
    var md := Lookup(cgs.members, METADATA);
    var h := Str(Lit(ComputeHash(p, cgs)));
    DigestShape(p, HashedText(p, cgs));
    if !HasKey(cgs.members, METADATA) {
      MissingKey(cgs.members, METADATA);
      assert false;
    }
    SetAfterSet(cgs.members, METADATA, Obj(SetKey(md.members, CGS_HASH, h)), md);
    SetAfterSet(md.members, CGS_HASH, h, h);
    SetToPresent(cgs.members, METADATA);
    if HasKey(md.members, CGS_HASH) {
      SetToPresent(md.members, CGS_HASH);
    }
  }

  /** A sealed document passes the strict check, and sealing it again changes nothing. */
  lemma SealIsFixpoint(p: Platform, cgs: Json)
    requires Sound(p) && cgs.Obj? && Dicts(cgs) && Lookup(cgs.members, METADATA).Obj?
    ensures var sealed := Seal(p, cgs);
      && sealed.Obj? && Lookup(sealed.members, METADATA).Obj?
      && Seal(p, sealed) == sealed
      && (HashMatches(p, sealed) <==> Lit(ComputeHash(p, cgs)) != ZERO_DIGEST)
  {
    var md := Lookup(cgs.members, METADATA);
    var h := Str(Lit(ComputeHash(p, cgs)));
    HashIgnoresDeclared(p, cgs, h);
    var md2 := Obj(SetKey(md.members, CGS_HASH, h));
    SetAfterSet(cgs.members, METADATA, md2, md2);
    SetAfterSet(md.members, CGS_HASH, h, h);
    DigestShape(p, HashedText(p, cgs));
  }
}
