/**
 * The two normal forms behind the system's hashes: `canonicalize`
 * (nestjs-auth/src/modules/ai/utils/input-hash.util.ts) and the body serialisation of
 * `computeHash` (nestjs-auth/src/platform/idempotency/idempotency.service.ts). A digest is not
 * modelled; what is compared is the tree that is serialised.
 */
module CanonicalJson {
  import opened Base
  import opened Sorting

  /** A JavaScript value; an object's fields come in enumeration order, each key once. */
  datatype Json =
    | Null | Undefined
    | Bool(b: bool) | Num(n: int) | Str(s: string) | Date(iso: string)
    | Arr(items: seq<Json>)
    | Obj(fields: seq<Field>)

  datatype Field = Field(key: string, value: Json)

  ghost predicate DistinctKeys(fields: seq<Field>) {
    forall i, j :: 0 <= i < j < |fields| ==> fields[i].key != fields[j].key
  }

  ghost predicate WellKeyed(v: Json) {
    match v
    case Arr(items) => forall i :: 0 <= i < |items| ==> WellKeyed(items[i])
    case Obj(fields) => DistinctKeys(fields) && forall i :: 0 <= i < |fields| ==> WellKeyed(fields[i].value)
    case _ => true
  }

  /* ---------- the order of keys ---------- */

  predicate KeyLeq(a: string, b: string) {
    a == "" || (b != "" && (a[0] < b[0] || (a[0] == b[0] && KeyLeq(a[1..], b[1..]))))
  }

  predicate FieldLeq(a: Field, b: Field) {
    KeyLeq(a.key, b.key)
  }

  lemma {:induction false} KeyLeqTotal(a: string, b: string)
    ensures KeyLeq(a, b) || KeyLeq(b, a)
    ensures KeyLeq(a, b) && KeyLeq(b, a) ==> a == b
  {
    if a != "" && b != "" {
      KeyLeqTotal(a[1..], b[1..]);
      assert a == [a[0]] + a[1..] && b == [b[0]] + b[1..];
    }
  }

  lemma {:induction false} KeyLeqTransitive(a: string, b: string, c: string)
    requires KeyLeq(a, b) && KeyLeq(b, c)
    ensures KeyLeq(a, c)
  {
    if a != "" && a[0] == b[0] == c[0] {
      KeyLeqTransitive(a[1..], b[1..], c[1..]);
    }
  }

  lemma KeysOrdered()
    ensures TotalOrder(KeyLeq) && TotalOrder(FieldLeq)
  {
    forall a, b
      ensures KeyLeq(a, b) || KeyLeq(b, a)
    {
      KeyLeqTotal(a, b);
    }
    forall a, b, c | KeyLeq(a, b) && KeyLeq(b, c)
      ensures KeyLeq(a, c)
    {
      KeyLeqTransitive(a, b, c);
    }
  }

  /* ---------- canonicalize ---------- */

  /** Assigning to this key of a fresh record sets the record's prototype and stores no field. */
  const PROTO := "__proto__"

  predicate IsKeptKey(key: string) { key != PROTO }
  predicate IsKept(f: Field) { IsKeptKey(f.key) }

  function Canon(v: Json): Json {
    match v
    case Null => Null
    case Undefined => Null
    case Date(iso) => Str(iso)
    case Arr(items) => Arr(seq(|items|, i requires 0 <= i < |items| => Canon(items[i])))
    case Obj(fields) => Obj(SortBy(Filter(CanonFields(fields), IsKept), FieldLeq))
    case _ => v
  }

  function CanonFields(fields: seq<Field>): (r: seq<Field>)
    ensures |r| == |fields|
    ensures forall i :: 0 <= i < |fields| ==> r[i] == Field(fields[i].key, Canon(fields[i].value))
  {
    seq(|fields|, i requires 0 <= i < |fields| => Field(fields[i].key, Canon(fields[i].value)))
  }

  /**
   * The same logical input: a missing value is a missing value, a date is its text, lists agree
   * item by item, and objects agree key by key, in whatever order, whatever they hold under
   * `__proto__`.
   */
  ghost predicate Same(v: Json, w: Json)
    decreases v, 3
  {
    match (v, w)
    case (Arr(xs), Arr(ys)) => |xs| == |ys| && forall i :: 0 <= i < |xs| ==> Same(xs[i], ys[i])
    case (Obj(fs), Obj(gs)) => AllMatchedIn(fs, gs) && AllMatchedBy(fs, gs)
    case (Arr(_), _) => false
    case (_, Arr(_)) => false
    case (Obj(_), _) => false
    case (_, Obj(_)) => false
    case (_, _) => Leaf(v) == Leaf(w)
  }

  ghost predicate Matches(f: Field, g: Field)
    decreases f, 0
  {
    f.key == g.key && Same(f.value, g.value)
  }

  ghost predicate MatchedIn(f: Field, gs: seq<Field>)
    decreases f, 1
  {
    exists j :: 0 <= j < |gs| && Matches(f, gs[j])
  }

  ghost predicate MatchedBy(fs: seq<Field>, g: Field)
    decreases fs, 1
  {
    exists i :: 0 <= i < |fs| && Matches(fs[i], g)
  }

  ghost predicate AllMatchedIn(fs: seq<Field>, gs: seq<Field>)
    decreases fs, 2
  {
    forall i :: 0 <= i < |fs| && IsKept(fs[i]) ==> MatchedIn(fs[i], gs)
  }

  ghost predicate AllMatchedBy(fs: seq<Field>, gs: seq<Field>)
    decreases fs, 2
  {
    forall j :: 0 <= j < |gs| && IsKept(gs[j]) ==> MatchedBy(fs, gs[j])
  }

  function Leaf(v: Json): Json
    requires !v.Arr? && !v.Obj?
  {
    if v.Undefined? then Null else if v.Date? then Str(v.iso) else v
  }

  /** Sorting fields with distinct keys leaves no ties. */
  lemma SortedFields(fields: seq<Field>)
    requires DistinctKeys(fields)
    ensures var r := SortBy(fields, FieldLeq);
      && StrictlyAscending(r, FieldLeq)
      && (forall f :: f in r <==> f in fields)
  {
    var r := SortBy(fields, FieldLeq);
    KeysOrdered();
    SortBySpec(fields, FieldLeq);
    forall f
      ensures f in r <==> f in fields
    {
      assert f in multiset(r) <==> f in multiset(fields);
    }
    DistinctAfterPermutation(fields, r);
    forall i, j | 0 <= i < j < |r|
      ensures !FieldLeq(r[j], r[i])
    {
      KeyLeqTotal(r[i].key, r[j].key);
    }
  }

  lemma DistinctAfterPermutation(xs: seq<Field>, ys: seq<Field>)
    requires DistinctKeys(xs) && multiset(xs) == multiset(ys)
    ensures DistinctKeys(ys)
  {
    PermutedNoRepeats(xs, ys);
    forall i, j | 0 <= i < j < |ys|
      ensures ys[i].key != ys[j].key
    {
      assert ys[i] in multiset(xs) && ys[j] in multiset(xs);
      var k :| 0 <= k < |xs| && xs[k] == ys[i];
      var l :| 0 <= l < |xs| && xs[l] == ys[j];
      assert k != l;
    }
  }

  /** The fields a canonical object is made of. */
  ghost function Kept(fields: seq<Field>): seq<Field> {
    Filter(CanonFields(fields), IsKept)
  }

  lemma KeptMember(fields: seq<Field>, f: Field)
    ensures f in Kept(fields) <==> f in CanonFields(fields) && IsKept(f)
  {
    FilterMembers(CanonFields(fields), IsKept, f);
  }

  lemma KeptDistinct(fields: seq<Field>)
    requires DistinctKeys(fields)
    ensures DistinctKeys(Kept(fields))
  {
    FilterDistinct(CanonFields(fields));
  }

  lemma {:induction false} FilterDistinct(fields: seq<Field>)
    requires DistinctKeys(fields)
    ensures DistinctKeys(Filter(fields, IsKept))
    decreases |fields|
  {
    if fields != [] {
      var front, last := fields[..|fields| - 1], fields[|fields| - 1];
      FilterDistinct(front);
      var kept := Filter(front, IsKept);
      forall i | 0 <= i < |kept|
        ensures kept[i].key != last.key
      {
        FilterMembers(front, IsKept, kept[i]);
        var j :| 0 <= j < |front| && front[j] == kept[i];
        assert fields[j] == kept[i];
      }
    }
  }

  /** Containment of the kept fields, index by index of the original ones. */
  lemma KeptContained(fs: seq<Field>, gs: seq<Field>)
    ensures Contained(Kept(fs), Kept(gs))
        <==> forall i :: 0 <= i < |fs| && IsKept(fs[i]) ==> CanonFields(fs)[i] in CanonFields(gs)
  {
    if Contained(Kept(fs), Kept(gs)) {
      forall i | 0 <= i < |fs| && IsKept(fs[i])
        ensures CanonFields(fs)[i] in CanonFields(gs)
      {
        KeptMember(fs, CanonFields(fs)[i]);
        KeptMember(gs, CanonFields(fs)[i]);
      }
    }
    if forall i :: 0 <= i < |fs| && IsKept(fs[i]) ==> CanonFields(fs)[i] in CanonFields(gs) {
      forall k | 0 <= k < |Kept(fs)|
        ensures Kept(fs)[k] in Kept(gs)
      {
        var f := Kept(fs)[k];
        KeptMember(fs, f);
        KeptMember(gs, f);
        var i :| 0 <= i < |fs| && CanonFields(fs)[i] == f;
        assert IsKept(fs[i]);
      }
    }
  }

  /** Two inputs have one canonical form exactly when they are the same logical input. */
  lemma {:induction false} CanonDecidesSame(v: Json, w: Json)
    requires WellKeyed(v) && WellKeyed(w)
    ensures Canon(v) == Canon(w) <==> Same(v, w)
    decreases v, 2
  {
    if v.Arr? && w.Arr? {
      ArraysAgree(v, w);
    } else if v.Obj? && w.Obj? {
      ObjectsAgree(v, w);
    }
  }

  lemma {:induction false} ArraysAgree(v: Json, w: Json)
    requires WellKeyed(v) && WellKeyed(w) && v.Arr? && w.Arr?
    ensures Canon(v) == Canon(w) <==> Same(v, w)
    decreases v, 0
  {
    var xs, ys := v.items, w.items;
    if |xs| == |ys| {
      forall i | 0 <= i < |xs|
        ensures Canon(xs[i]) == Canon(ys[i]) <==> Same(xs[i], ys[i])
      {
        CanonDecidesSame(xs[i], ys[i]);
      }
      if Canon(v) == Canon(w) {
        forall i | 0 <= i < |xs|
          ensures Same(xs[i], ys[i])
        {
          assert Canon(v).items[i] == Canon(w).items[i];
        }
      }
    } else {
      assert |Canon(v).items| != |Canon(w).items|;
    }
  }

  lemma {:induction false} ObjectsAgree(v: Json, w: Json)
    requires WellKeyed(v) && WellKeyed(w) && v.Obj? && w.Obj?
    ensures Canon(v) == Canon(w) <==> Same(v, w)
    decreases v, 1
  {
    AllMatchedForth(v, w);
    AllMatchedBack(v, w);
    KeptDistinct(v.fields);
    KeptDistinct(w.fields);
    SortedAgree(Kept(v.fields), Kept(w.fields));
  }

  lemma {:induction false} AllMatchedForth(v: Json, w: Json)
    requires WellKeyed(v) && WellKeyed(w) && v.Obj? && w.Obj?
    ensures AllMatchedIn(v.fields, w.fields) <==> Contained(Kept(v.fields), Kept(w.fields))
    decreases v, 0
  {
    var fs, gs := v.fields, w.fields;
    forall i | 0 <= i < |fs|
      ensures CanonFields(fs)[i] in CanonFields(gs) <==> MatchedIn(fs[i], gs)
    {
      forall j | 0 <= j < |gs|
        ensures Decided(fs[i], gs[j])
      {
        CanonDecidesSame(fs[i].value, gs[j].value);
      }
      MatchForth(fs, gs, i);
    }
    KeptContained(fs, gs);
  }

  lemma {:induction false} AllMatchedBack(v: Json, w: Json)
    requires WellKeyed(v) && WellKeyed(w) && v.Obj? && w.Obj?
    ensures AllMatchedBy(v.fields, w.fields) <==> Contained(Kept(w.fields), Kept(v.fields))
    decreases v, 0
  {
    var fs, gs := v.fields, w.fields;
    forall j | 0 <= j < |gs|
      ensures CanonFields(gs)[j] in CanonFields(fs) <==> MatchedBy(fs, gs[j])
    {
      forall i | 0 <= i < |fs|
        ensures Decided(fs[i], gs[j])
      {
        CanonDecidesSame(fs[i].value, gs[j].value);
      }
      MatchBack(fs, gs, j);
    }
    KeptContained(gs, fs);
  }

  ghost predicate Contained(xs: seq<Field>, ys: seq<Field>) {
    forall i :: 0 <= i < |xs| ==> xs[i] in ys
  }

  /** Two lists with the same members. */
  ghost predicate SameSet(xs: seq<Field>, ys: seq<Field>) {
    Contained(xs, ys) && Contained(ys, xs)
  }

  /** Sorted field lists are equal exactly when the lists have the same members. */
  lemma SortedAgree(xs: seq<Field>, ys: seq<Field>)
    requires DistinctKeys(xs) && DistinctKeys(ys)
    ensures SortBy(xs, FieldLeq) == SortBy(ys, FieldLeq) <==> SameSet(xs, ys)
  {
    KeysOrdered();
    SortedFields(xs);
    SortedFields(ys);
    var sx, sy := SortBy(xs, FieldLeq), SortBy(ys, FieldLeq);
    if sx == sy {
      assert forall i :: 0 <= i < |xs| ==> xs[i] in sx;
      assert forall j :: 0 <= j < |ys| ==> ys[j] in sy;
    } else if SameSet(xs, ys) {
      SameMembers(sx, sy, FieldLeq);
    }
  }

  /** Field by field, canonical equality is matching. */
  ghost predicate Decided(f: Field, g: Field) {
    Canon(f.value) == Canon(g.value) <==> Same(f.value, g.value)
  }

  lemma FieldDecided(fs: seq<Field>, gs: seq<Field>, i: nat, j: nat)
    requires i < |fs| && j < |gs| && Decided(fs[i], gs[j])
    ensures CanonFields(fs)[i] == CanonFields(gs)[j] <==> Matches(fs[i], gs[j])
  {
  }

  lemma MatchForth(fs: seq<Field>, gs: seq<Field>, i: nat)
    requires i < |fs| && forall j :: 0 <= j < |gs| ==> Decided(fs[i], gs[j])
    ensures CanonFields(fs)[i] in CanonFields(gs) <==> MatchedIn(fs[i], gs)
  {
    forall j | 0 <= j < |gs|
      ensures CanonFields(fs)[i] == CanonFields(gs)[j] <==> Matches(fs[i], gs[j])
    {
      FieldDecided(fs, gs, i, j);
    }
  }

  lemma MatchBack(fs: seq<Field>, gs: seq<Field>, j: nat)
    requires j < |gs| && forall i :: 0 <= i < |fs| ==> Decided(fs[i], gs[j])
    ensures CanonFields(gs)[j] in CanonFields(fs) <==> MatchedBy(fs, gs[j])
  {
    forall i | 0 <= i < |fs|
      ensures CanonFields(fs)[i] == CanonFields(gs)[j] <==> Matches(fs[i], gs[j])
    {
      FieldDecided(fs, gs, i, j);
    }
  }

  /* ---------- what follows ---------- */

  /** A canonical form is an object of the same logical input, with distinct keys. */
  lemma {:induction false} CanonIsSame(v: Json)
    requires WellKeyed(v)
    ensures WellKeyed(Canon(v)) && Same(Canon(v), v)
  {
    match v
    case Arr(items) =>
      forall i | 0 <= i < |items|
        ensures WellKeyed(Canon(items[i])) && Same(Canon(items[i]), items[i])
      {
        CanonIsSame(items[i]);
      }
    case Obj(fields) =>
      forall i | 0 <= i < |fields|
        ensures WellKeyed(Canon(fields[i].value)) && Same(Canon(fields[i].value), fields[i].value)
      {
        CanonIsSame(fields[i].value);
      }
      SortedIsSame(fields);
    case _ =>
  }

  lemma SortedIsSame(fields: seq<Field>)
    requires DistinctKeys(fields)
    requires forall i :: 0 <= i < |fields| ==>
      WellKeyed(Canon(fields[i].value)) && Same(Canon(fields[i].value), fields[i].value)
    ensures var r := SortBy(Kept(fields), FieldLeq); WellKeyed(Obj(r)) && Same(Obj(r), Obj(fields))
  {
    var r := SortBy(Kept(fields), FieldLeq);
    KeptDistinct(fields);
    SortedFields(Kept(fields));
    SortedDistinct(r);
    forall i | 0 <= i < |r|
      ensures WellKeyed(r[i].value) && MatchedIn(r[i], fields)
    {
      KeptMember(fields, r[i]);
      assert r[i] in Kept(fields);
      var j :| 0 <= j < |fields| && CanonFields(fields)[j] == r[i];
      assert Matches(r[i], fields[j]);
    }
    forall j | 0 <= j < |fields| && IsKept(fields[j])
      ensures MatchedBy(r, fields[j])
    {
      KeptMember(fields, CanonFields(fields)[j]);
      assert CanonFields(fields)[j] in r;
      var i :| 0 <= i < |r| && r[i] == CanonFields(fields)[j];
      assert Matches(r[i], fields[j]);
    }
  }

  lemma SortedDistinct(r: seq<Field>)
    requires StrictlyAscending(r, FieldLeq)
    ensures DistinctKeys(r)
  {
    forall i, j | 0 <= i < j < |r|
      ensures r[i].key != r[j].key
    {
      assert FieldLeq(r[i], r[j]) && !FieldLeq(r[j], r[i]);
    }
  }

  /** Canonicalizing twice is canonicalizing once. */
  lemma CanonIdempotent(v: Json)
    requires WellKeyed(v)
    ensures Canon(Canon(v)) == Canon(v)
  {
    CanonIsSame(v);
    CanonDecidesSame(Canon(v), v);
  }

  lemma CanonContained(fs: seq<Field>, gs: seq<Field>)
    requires forall f :: f in fs ==> f in gs
    ensures Contained(Kept(fs), Kept(gs))
  {
    forall i | 0 <= i < |fs|
      ensures CanonFields(fs)[i] in CanonFields(gs)
    {
      assert fs[i] in gs;
      var j :| 0 <= j < |gs| && gs[j] == fs[i];
      assert CanonFields(gs)[j] == CanonFields(fs)[i];
    }
    KeptContained(fs, gs);
  }

  /** The order in which an object lists its keys never shows. */
  lemma KeyOrderIrrelevant(fs: seq<Field>, gs: seq<Field>)
    requires DistinctKeys(fs) && multiset(fs) == multiset(gs)
    ensures Canon(Obj(fs)) == Canon(Obj(gs))
  {
    DistinctAfterPermutation(fs, gs);
    KeptDistinct(fs);
    KeptDistinct(gs);
    forall f
      ensures f in fs <==> f in gs
    {
      assert f in multiset(fs) <==> f in multiset(gs);
    }
    CanonContained(fs, gs);
    CanonContained(gs, fs);
    SortedAgree(Kept(fs), Kept(gs));
  }

  /** What an object holds under `__proto__` does not reach its canonical form: it is that of the empty object. */
  lemma ProtoFieldLost(v: Json)
    requires WellKeyed(v)
    ensures Canon(Obj([Field(PROTO, v)])) == Canon(Obj([])) == Obj([])
    ensures Obj([Field(PROTO, v)]) != Obj([])
  {
    var fields := CanonFields([Field(PROTO, v)]);
    assert fields[..0] == [] && !IsKept(fields[0]);
    assert Filter(fields, IsKept) == [];
    assert CanonFields([]) == [];
  }

  /* ---------- the recursive procedure ---------- */

  function Keys(fields: seq<Field>): (r: seq<string>)
    ensures |r| == |fields| && forall i :: 0 <= i < |fields| ==> r[i] == fields[i].key
  {
    seq(|fields|, i requires 0 <= i < |fields| => fields[i].key)
  }

  method FieldOf(fields: seq<Field>, key: string) returns (j: nat)
    requires key in Keys(fields)
    ensures j < |fields| && fields[j].key == key
  {
    ghost var there :| 0 <= there < |fields| && Keys(fields)[there] == key;
    j := 0;
    while fields[j].key != key
      invariant j <= there
      decreases there - j
    {
      j := j + 1;
    }
  }

  method Canonicalize(v: Json) returns (r: Json)
    requires WellKeyed(v)
    ensures r == Canon(v)
    decreases v, 2
  {
    match v
    case Null => return Null;
    case Undefined => return Null;
    case Date(iso) => return Str(iso);
    case Arr(items) =>
      var mapped: seq<Json> := [];
      for i := 0 to |items|
        invariant |mapped| == i && forall k :: 0 <= k < i ==> mapped[k] == Canon(items[k])
      {
        var item := Canonicalize(items[i]);
        mapped := mapped + [item];
      }
      return Arr(mapped);
    case Obj(_) =>
      var result := CanonicalizeFields(v);
      return Obj(result);
    case _ => return v;
  }

  /** The object branch fills a fresh record key by key, in sorted order of the keys. */
  method CanonicalizeFields(v: Json) returns (result: seq<Field>)
    requires v.Obj? && WellKeyed(v)
    ensures result == SortBy(Kept(v.fields), FieldLeq)
    decreases v, 1
  {
    var sortedKeys := SortBy(Keys(v.fields), KeyLeq);
    KeysStayKeys(v.fields, sortedKeys);
    result := [];
    for i := 0 to |sortedKeys|
      invariant FilledUpTo(v.fields, sortedKeys[..i], result)
    {
      var field := CanonicalizeField(v, sortedKeys[i]);
      FillNext(v.fields, sortedKeys, i, result, field);
      if sortedKeys[i] != PROTO {
        result := result + [field];
      }
    }
    assert sortedKeys[..|sortedKeys|] == sortedKeys;
    FilledIsSorted(v.fields, result);
  }

  method CanonicalizeField(v: Json, key: string) returns (field: Field)
    requires v.Obj? && WellKeyed(v) && key in Keys(v.fields)
    ensures field in CanonFields(v.fields) && field.key == key
    decreases v, 0
  {
    var j := FieldOf(v.fields, key);
    var value := Canonicalize(v.fields[j].value);
    field := Field(key, value);
    assert field == CanonFields(v.fields)[j];
  }

  /** The record holds one canonical field for each of the keys done so far that a record can hold. */
  ghost predicate FilledUpTo(fields: seq<Field>, keys: seq<string>, result: seq<Field>) {
    && |result| == |Filter(keys, IsKeptKey)|
    && forall k :: 0 <= k < |result| ==> result[k].key == Filter(keys, IsKeptKey)[k] && result[k] in Kept(fields)
  }

  lemma FillOne(fields: seq<Field>, keys: seq<string>, result: seq<Field>, f: Field)
    requires f in CanonFields(fields) && FilledUpTo(fields, keys, result)
    ensures FilledUpTo(fields, keys + [f.key], if IsKept(f) then result + [f] else result)
  {
    assert (keys + [f.key])[..|keys|] == keys;
    KeptMember(fields, f);
  }

  lemma FillNext(fields: seq<Field>, keys: seq<string>, i: nat, result: seq<Field>, f: Field)
    requires i < |keys| && f in CanonFields(fields) && f.key == keys[i] && FilledUpTo(fields, keys[..i], result)
    ensures FilledUpTo(fields, keys[..i + 1], if keys[i] == PROTO then result else result + [f])
  {
    assert keys[..i + 1] == keys[..i] + [f.key];
    FillOne(fields, keys[..i], result, f);
  }

  lemma SortedKeys(fields: seq<Field>)
    requires DistinctKeys(fields)
    ensures var r := SortBy(Keys(fields), KeyLeq);
      && StrictlyAscending(r, KeyLeq) && |r| == |fields|
      && (forall k :: k in r <==> k in Keys(fields))
  {
    var keys, r := Keys(fields), SortBy(Keys(fields), KeyLeq);
    KeysOrdered();
    SortBySpec(keys, KeyLeq);
    PermutedNoRepeats(keys, r);
    forall k
      ensures k in r <==> k in keys
    {
      assert k in multiset(r) <==> k in multiset(keys);
    }
    forall i, j | 0 <= i < j < |r|
      ensures !KeyLeq(r[j], r[i])
    {
      KeyLeqTotal(r[i], r[j]);
    }
  }

  /** One field for every key, in ascending order of the keys, is the sorted list of fields. */
  lemma FilledInOrder(fields: seq<Field>, keys: seq<string>, result: seq<Field>)
    requires DistinctKeys(fields) && StrictlyAscending(keys, KeyLeq) && |result| == |keys|
    requires forall i :: 0 <= i < |fields| ==> fields[i].key in keys
    requires forall k :: 0 <= k < |result| ==> result[k].key == keys[k] && result[k] in fields
    ensures result == SortBy(fields, FieldLeq)
  {
    KeysOrdered();
    SortedFields(fields);
    ResultAscends(keys, result);
    forall f | f in fields
      ensures f in result
    {
      FieldFilled(fields, keys, result, f);
    }
    SameMembers(result, SortBy(fields, FieldLeq), FieldLeq);
  }

  lemma KeptInOrder(fields: seq<Field>, keys: seq<string>, result: seq<Field>)
    requires DistinctKeys(fields) && StrictlyAscending(keys, KeyLeq)
    requires (forall k :: k in keys <==> k in Keys(fields)) && FilledUpTo(fields, keys, result)
    ensures result == SortBy(Kept(fields), FieldLeq)
  {
    KeptDistinct(fields);
    FilterAscends(keys, IsKeptKey, KeyLeq);
    forall i | 0 <= i < |Kept(fields)|
      ensures Kept(fields)[i].key in Filter(keys, IsKeptKey)
    {
      var f := Kept(fields)[i];
      KeptMember(fields, f);
      var j :| 0 <= j < |fields| && CanonFields(fields)[j] == f;
      assert Keys(fields)[j] == f.key;
      FilterMembers(keys, IsKeptKey, f.key);
    }
    FilledInOrder(Kept(fields), Filter(keys, IsKeptKey), result);
  }

  /** A record filled with all the sorted keys is the sorted list of the fields that are kept. */
  lemma FilledIsSorted(fields: seq<Field>, result: seq<Field>)
    requires DistinctKeys(fields) && FilledUpTo(fields, SortBy(Keys(fields), KeyLeq), result)
    ensures result == SortBy(Kept(fields), FieldLeq)
  {
    SortedKeys(fields);
    KeptInOrder(fields, SortBy(Keys(fields), KeyLeq), result);
  }

  lemma KeysStayKeys(fields: seq<Field>, keys: seq<string>)
    requires DistinctKeys(fields) && keys == SortBy(Keys(fields), KeyLeq)
    ensures forall i :: 0 <= i < |keys| ==> keys[i] in Keys(fields)
  {
    SortedKeys(fields);
  }

  lemma ResultAscends(keys: seq<string>, result: seq<Field>)
    requires StrictlyAscending(keys, KeyLeq) && |result| == |keys|
    requires forall k :: 0 <= k < |result| ==> result[k].key == keys[k]
    ensures StrictlyAscending(result, FieldLeq)
  {
  }

  lemma FieldFilled(fields: seq<Field>, keys: seq<string>, result: seq<Field>, f: Field)
    requires DistinctKeys(fields) && |result| == |keys| && f in fields && f.key in keys
    requires forall k :: 0 <= k < |result| ==> result[k].key == keys[k] && result[k] in fields
    ensures f in result
  {
    var k :| 0 <= k < |keys| && keys[k] == f.key;
    var i :| 0 <= i < |fields| && fields[i] == f;
    var j :| 0 <= j < |fields| && fields[j] == result[k];
    assert i == j;
  }
}
