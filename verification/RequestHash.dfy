/**
 * What `computeHash` feeds to its digest: the body serialised with the sorted top-level keys as
 * an allow-list (section 25.5.2 of ECMA-262), which holds for objects at every depth.
 */
module RequestHash {
  import opened Base
  import opened Sorting
  import opened CanonicalJson

  /** The position of a key, or the number of fields when it is absent. */
  function IndexOf(fields: seq<Field>, k: string): (i: nat)
    ensures i <= |fields| && (i < |fields| ==> fields[i].key == k)
    ensures i == |fields| ==> forall j :: 0 <= j < |fields| ==> fields[j].key != k
  {
    if fields == [] then 0
    else if fields[0].key == k then 0
    else IndexOf(fields[1..], k) + 1
  }

  /** Present with a value that can be serialised. */
  predicate Defined(fields: seq<Field>, k: string) {
    IndexOf(fields, k) < |fields| && !fields[IndexOf(fields, k)].value.Undefined?
  }

  /** `JSON.stringify` with an array as its second argument, as the tree it writes. */
  function Serialize(v: Json, allow: seq<string>): Json
    decreases v, |allow| + 1
  {
    match v
    case Undefined => Null
    case Date(iso) => Str(iso)
    case Arr(items) => Arr(seq(|items|, i requires 0 <= i < |items| => Serialize(items[i], allow)))
    case Obj(_) => Obj(SerializeFields(v, allow, allow))
    case _ => v
  }

  /** The allowed keys in the order of the list; keys without a value are skipped. */
  function SerializeFields(v: Json, allow: seq<string>, keys: seq<string>): seq<Field>
    requires v.Obj?
    decreases v, |keys|
  {
    if keys == [] then []
    else
      (if Defined(v.fields, keys[0])
       then [Field(keys[0], Serialize(v.fields[IndexOf(v.fields, keys[0])].value, allow))] else [])
      + SerializeFields(v, allow, keys[1..])
  }

  /** `Object.keys(body).sort()`. */
  function AllowList(fields: seq<Field>): seq<string> {
    SortBy(Keys(fields), KeyLeq)
  }

  /** The tree hashed for an object body. */
  function HashedTree(fields: seq<Field>): Json {
    Serialize(Obj(fields), AllowList(fields))
  }

  /* ---------- the relation it decides ---------- */

  /** Values agree as far as the keys in `p`, respectively `q`, let one see into their objects. */
  ghost predicate Agree(v: Json, w: Json, p: string -> bool, q: string -> bool)
    decreases v, 1
  {
    match (v, w)
    case (Arr(xs), Arr(ys)) => |xs| == |ys| && forall i :: 0 <= i < |xs| ==> Agree(xs[i], ys[i], p, q)
    case (Obj(fs), Obj(gs)) => forall k: string :: AgreeAt(fs, gs, k, p, q)
    case (Arr(_), _) => false
    case (_, Arr(_)) => false
    case (Obj(_), _) => false
    case (_, Obj(_)) => false
    case (_, _) => Leaf(v) == Leaf(w)
  }

  ghost predicate AgreeAt(fs: seq<Field>, gs: seq<Field>, k: string, p: string -> bool, q: string -> bool)
    decreases fs, 0
  {
    && (p(k) && Defined(fs, k) <==> q(k) && Defined(gs, k))
    && (p(k) && Defined(fs, k) && Defined(gs, k) ==>
          Agree(fs[IndexOf(fs, k)].value, gs[IndexOf(gs, k)].value, p, q))
  }

  predicate Any(k: string) { true }

  /** The same body: nothing is hidden, and only key order, undefined fields and dates as text are let pass. */
  ghost predicate SameBody(v: Json, w: Json) {
    Agree(v, w, Any, Any)
  }

  /* ---------- serialised fields ---------- */

  /** What is written under key `k`. */
  function Written(v: Json, allow: seq<string>, keys: seq<string>, k: string): Option<Json>
    requires v.Obj?
  {
    if k in keys && Defined(v.fields, k) then Some(Serialize(v.fields[IndexOf(v.fields, k)].value, allow)) else None
  }

  lemma {:induction false} WrittenFields(v: Json, allow: seq<string>, keys: seq<string>)
    requires v.Obj? && StrictlyAscending(keys, KeyLeq)
    ensures var r := SerializeFields(v, allow, keys);
      && StrictlyAscending(r, FieldLeq)
      && forall f :: f in r <==> Written(v, allow, keys, f.key) == Some(f.value)
    decreases |keys|
  {
    if keys != [] {
      WrittenFields(v, allow, keys[1..]);
      var r, rest := SerializeFields(v, allow, keys), SerializeFields(v, allow, keys[1..]);
      forall i | 0 <= i < |rest|
        ensures KeyLeq(keys[0], rest[i].key) && !KeyLeq(rest[i].key, keys[0])
      {
        assert rest[i] in rest;
        var j :| 0 <= j < |keys[1..]| && keys[1..][j] == rest[i].key;
        assert keys[j + 1] == rest[i].key;
      }
      forall j | 1 <= j < |keys|
        ensures keys[j] != keys[0]
      {
        assert KeyLeq(keys[0], keys[j]) && !KeyLeq(keys[j], keys[0]);
      }
    }
  }

  /** Two serialised objects are equal exactly when they write the same under every key. */
  lemma SerializedObjectsAgree(v: Json, w: Json, ka: seq<string>, kb: seq<string>)
    requires v.Obj? && w.Obj? && StrictlyAscending(ka, KeyLeq) && StrictlyAscending(kb, KeyLeq)
    ensures Serialize(v, ka) == Serialize(w, kb)
        <==> forall k :: Written(v, ka, ka, k) == Written(w, kb, kb, k)
  {
    if SerializeFields(v, ka, ka) == SerializeFields(w, kb, kb) {
      forall k
        ensures Written(v, ka, ka, k) == Written(w, kb, kb, k)
      {
        EqualFieldsWriteSame(v, w, ka, kb, k);
      }
    }
    if forall k :: Written(v, ka, ka, k) == Written(w, kb, kb, k) {
      SameWritingEqualFields(v, w, ka, kb);
    }
  }

  lemma EqualFieldsWriteSame(v: Json, w: Json, ka: seq<string>, kb: seq<string>, k: string)
    requires v.Obj? && w.Obj? && StrictlyAscending(ka, KeyLeq) && StrictlyAscending(kb, KeyLeq)
    requires SerializeFields(v, ka, ka) == SerializeFields(w, kb, kb)
    ensures Written(v, ka, ka, k) == Written(w, kb, kb, k)
  {
    var x, y := Written(v, ka, ka, k), Written(w, kb, kb, k);
    WrittenFields(v, ka, ka);
    WrittenFields(w, kb, kb);
    if x.Some? { assert Field(k, x.value) in SerializeFields(v, ka, ka); }
    if y.Some? { assert Field(k, y.value) in SerializeFields(w, kb, kb); }
  }

  lemma SameWritingEqualFields(v: Json, w: Json, ka: seq<string>, kb: seq<string>)
    requires v.Obj? && w.Obj? && StrictlyAscending(ka, KeyLeq) && StrictlyAscending(kb, KeyLeq)
    requires forall k :: Written(v, ka, ka, k) == Written(w, kb, kb, k)
    ensures SerializeFields(v, ka, ka) == SerializeFields(w, kb, kb)
  {
    var xs, ys := SerializeFields(v, ka, ka), SerializeFields(w, kb, kb);
    WrittenFields(v, ka, ka);
    WrittenFields(w, kb, kb);
    KeysOrdered();
    forall f
      ensures f in xs <==> f in ys
    {
      assert Written(v, ka, ka, f.key) == Written(w, kb, kb, f.key);
    }
    SameMembers(xs, ys, FieldLeq);
  }

  /** Equal serialisations are exactly agreement as far as the allow-lists let one see. */
  lemma {:induction false} SerializeDecides(v: Json, w: Json, ka: seq<string>, kb: seq<string>, p: string -> bool, q: string -> bool)
    requires StrictlyAscending(ka, KeyLeq) && StrictlyAscending(kb, KeyLeq)
    requires forall k :: (p(k) <==> k in ka) && (q(k) <==> k in kb)
    ensures Serialize(v, ka) == Serialize(w, kb) <==> Agree(v, w, p, q)
    decreases v
  {
    if v.Arr? && w.Arr? {
      if |v.items| == |w.items| {
        forall i | 0 <= i < |v.items|
          ensures Serialize(v, ka).items[i] == Serialize(w, kb).items[i] <==> Agree(v.items[i], w.items[i], p, q)
        {
          SerializeDecides(v.items[i], w.items[i], ka, kb, p, q);
        }
      } else {
        assert |Serialize(v, ka).items| != |Serialize(w, kb).items|;
      }
    } else if v.Obj? && w.Obj? {
      SerializedObjectsAgree(v, w, ka, kb);
      forall k
        ensures Written(v, ka, ka, k) == Written(w, kb, kb, k) <==> AgreeAt(v.fields, w.fields, k, p, q)
      {
        if k in ka && Defined(v.fields, k) && Defined(w.fields, k) {
          SerializeDecides(v.fields[IndexOf(v.fields, k)].value, w.fields[IndexOf(w.fields, k)].value, ka, kb, p, q);
        }
      }
    }
  }

  /* ---------- what a request hash tells apart ---------- */

  predicate SameHash(fs: seq<Field>, gs: seq<Field>) {
    HashedTree(fs) == HashedTree(gs)
  }

  /** Two bodies share a hash exactly when they agree under their own top-level keys. */
  lemma HashDecides(fs: seq<Field>, gs: seq<Field>)
    requires DistinctKeys(fs) && DistinctKeys(gs)
    ensures SameHash(fs, gs) <==> Agree(Obj(fs), Obj(gs), k => k in Keys(fs), k => k in Keys(gs))
  {
    SortedKeys(fs);
    SortedKeys(gs);
    SerializeDecides(Obj(fs), Obj(gs), AllowList(fs), AllowList(gs), k => k in Keys(fs), k => k in Keys(gs));
  }

  /** No object below the top level: leaves, and lists of such. */
  ghost predicate NoObject(v: Json) {
    match v
    case Arr(items) => forall i :: 0 <= i < |items| ==> NoObject(items[i])
    case Obj(_) => false
    case _ => true
  }

  ghost predicate Flat(fields: seq<Field>) {
    forall i :: 0 <= i < |fields| ==> NoObject(fields[i].value)
  }

  /** Without objects there is nothing an allow-list could hide. */
  lemma {:induction false} NothingHidden(v: Json, w: Json, p: string -> bool, q: string -> bool)
    requires NoObject(v) && Agree(v, w, p, q)
    ensures SameBody(v, w)
  {
    if v.Arr? {
      forall i | 0 <= i < |v.items|
        ensures SameBody(v.items[i], w.items[i])
      {
        NothingHidden(v.items[i], w.items[i], p, q);
      }
    }
  }

  /** A flat body's hash is shared by no other body, flat or not. */
  lemma FlatBodiesTold(fs: seq<Field>, gs: seq<Field>)
    requires DistinctKeys(fs) && DistinctKeys(gs) && Flat(fs) && SameHash(fs, gs)
    ensures SameBody(Obj(fs), Obj(gs))
  {
    HashDecides(fs, gs);
    var p, q := k => k in Keys(fs), k => k in Keys(gs);
    forall k
      ensures AgreeAt(fs, gs, k, Any, Any)
    {
      assert AgreeAt(fs, gs, k, p, q);
      assert Defined(fs, k) ==> Keys(fs)[IndexOf(fs, k)] in Keys(fs);
      assert Defined(gs, k) ==> Keys(gs)[IndexOf(gs, k)] in Keys(gs);
      if Defined(fs, k) && Defined(gs, k) {
        NothingHidden(fs[IndexOf(fs, k)].value, gs[IndexOf(gs, k)].value, p, q);
      }
    }
  }

  /* ---------- and what it does not ---------- */

  /** Every object at or below `v` gets one more field. */
  function AddHidden(v: Json, k: string): Json {
    match v
    case Arr(items) => Arr(seq(|items|, i requires 0 <= i < |items| => AddHidden(items[i], k)))
    case Obj(fields) => Obj(AddBelow(fields, k) + [Field(k, Null)])
    case _ => v
  }

  /** The same for the values of a body's fields, leaving its own keys alone. */
  function AddBelow(fields: seq<Field>, k: string): (r: seq<Field>)
    ensures |r| == |fields|
    ensures forall i :: 0 <= i < |fields| ==> r[i] == Field(fields[i].key, AddHidden(fields[i].value, k))
  {
    seq(|fields|, i requires 0 <= i < |fields| => Field(fields[i].key, AddHidden(fields[i].value, k)))
  }

  /** No object at or below `v` has the key. */
  ghost predicate Fresh(v: Json, k: string) {
    match v
    case Arr(items) => forall i :: 0 <= i < |items| ==> Fresh(items[i], k)
    case Obj(fields) => forall i :: 0 <= i < |fields| ==> fields[i].key != k && Fresh(fields[i].value, k)
    case _ => true
  }

  lemma IndexUnique(fields: seq<Field>, i: nat)
    requires DistinctKeys(fields) && i < |fields|
    ensures IndexOf(fields, fields[i].key) == i
  {
  }

  /** A key that is not allowed is not written, at any depth. */
  lemma {:induction false} HiddenUnseen(v: Json, k: string, p: string -> bool)
    requires WellKeyed(v) && Fresh(v, k) && !p(k)
    ensures WellKeyed(AddHidden(v, k)) && Agree(v, AddHidden(v, k), p, p)
  {
    match v
    case Arr(items) =>
      forall i | 0 <= i < |items|
        ensures WellKeyed(AddHidden(items[i], k)) && Agree(items[i], AddHidden(items[i], k), p, p)
      {
        HiddenUnseen(items[i], k, p);
      }
    case Obj(fields) =>
      forall i | 0 <= i < |fields|
        ensures WellKeyed(AddHidden(fields[i].value, k)) && Agree(fields[i].value, AddHidden(fields[i].value, k), p, p)
      {
        HiddenUnseen(fields[i].value, k, p);
      }
      FieldsUnseen(fields, AddBelow(fields, k) + [Field(k, Null)], k, p);
    case _ =>
  }

  lemma FieldsUnseen(fs: seq<Field>, gs: seq<Field>, k: string, p: string -> bool)
    requires DistinctKeys(fs) && !p(k) && |fs| <= |gs| && DistinctKeys(gs)
    requires forall i :: 0 <= i < |fs| ==>
      && gs[i].key == fs[i].key && (gs[i].value.Undefined? <==> fs[i].value.Undefined?)
      && Agree(fs[i].value, gs[i].value, p, p)
    requires forall i :: |fs| <= i < |gs| ==> gs[i].key == k
    ensures Agree(Obj(fs), Obj(gs), p, p)
  {
    forall key
      ensures AgreeAt(fs, gs, key, p, p)
    {
      var i := IndexOf(fs, key);
      if i < |fs| {
        IndexUnique(gs, i);
      } else if p(key) {
        assert forall j :: 0 <= j < |gs| ==> gs[j].key != key;
      }
    }
  }

  /** But it makes a different value of anything that holds an object. */
  lemma {:induction false} HiddenMatters(v: Json, k: string)
    requires WellKeyed(v) && Fresh(v, k) && !NoObject(v)
    ensures !SameBody(v, AddHidden(v, k))
  {
    match v
    case Arr(items) =>
      var i :| 0 <= i < |items| && !NoObject(items[i]);
      HiddenMatters(items[i], k);
    case Obj(fields) =>
      var more := AddBelow(fields, k) + [Field(k, Null)];
      assert more[|fields|].key == k;
      assert !Defined(fields, k);
      assert IndexOf(more, k) == |fields|;
      assert !AgreeAt(fields, more, k, Any, Any);
  }

  /** Keys are shorter than `n` at every depth. */
  ghost predicate KeysBelow(v: Json, n: nat) {
    match v
    case Arr(items) => forall i :: 0 <= i < |items| ==> KeysBelow(items[i], n)
    case Obj(fields) => forall i :: 0 <= i < |fields| ==> |fields[i].key| < n && KeysBelow(fields[i].value, n)
    case _ => true
  }

  lemma KeysBelowMore(v: Json, n: nat, m: nat)
    requires KeysBelow(v, n) && n <= m
    ensures KeysBelow(v, m)
  {
  }

  lemma {:induction false} KeyBound(v: Json) returns (n: nat)
    ensures KeysBelow(v, n)
    decreases v
  {
    n := 0;
    match v
    case Arr(items) =>
      for i := 0 to |items|
        invariant forall j :: 0 <= j < i ==> KeysBelow(items[j], n)
      {
        var m := KeyBound(items[i]);
        var larger := if n < m then m else n;
        forall j | 0 <= j < i
          ensures KeysBelow(items[j], larger)
        {
          KeysBelowMore(items[j], n, larger);
        }
        KeysBelowMore(items[i], m, larger);
        n := larger;
      }
    case Obj(fields) =>
      for i := 0 to |fields|
        invariant forall j :: 0 <= j < i ==> |fields[j].key| < n && KeysBelow(fields[j].value, n)
      {
        var m := KeyBound(fields[i].value);
        var larger := n + m + |fields[i].key| + 1;
        forall j | 0 <= j < i
          ensures KeysBelow(fields[j].value, larger)
        {
          KeysBelowMore(fields[j].value, n, larger);
        }
        KeysBelowMore(fields[i].value, m, larger);
        n := larger;
      }
    case _ =>
  }

  lemma LongKeyFresh(v: Json, n: nat, k: string)
    requires KeysBelow(v, n) && |k| == n
    ensures Fresh(v, k)
  {
  }

  /** Some body has the same hash and is not the same. */
  ghost predicate Confused(fs: seq<Field>, gs: seq<Field>) {
    WellKeyed(Obj(gs)) && SameHash(fs, gs) && !SameBody(Obj(fs), Obj(gs))
  }

  /** Every body with an object below its top level is confused with another one. */
  lemma NestedBodyConfused(fs: seq<Field>) returns (gs: seq<Field>)
    requires WellKeyed(Obj(fs)) && !Flat(fs)
    ensures Confused(fs, gs)
  {
    var n := KeyBound(Obj(fs));
    var k := seq(n, _ => 'k');
    LongKeyFresh(Obj(fs), n, k);
    gs := AddBelow(fs, k);
    var p: string -> bool := key => key in Keys(fs);
    assert Keys(gs) == Keys(fs);
    assert k !in Keys(fs);
    forall i | 0 <= i < |fs|
      ensures WellKeyed(gs[i].value) && Agree(fs[i].value, gs[i].value, p, p)
    {
      HiddenUnseen(fs[i].value, k, p);
    }
    FieldsUnseen(fs, gs, k, p);
    SameUnderOwnKeys(fs, gs, p);
    var i :| 0 <= i < |fs| && !NoObject(fs[i].value);
    HiddenMatters(fs[i].value, k);
    IndexUnique(fs, i);
    IndexUnique(gs, i);
    assert !AgreeAt(fs, gs, fs[i].key, Any, Any);
  }

  lemma SameUnderOwnKeys(fs: seq<Field>, gs: seq<Field>, p: string -> bool)
    requires DistinctKeys(fs) && DistinctKeys(gs) && Keys(fs) == Keys(gs)
    requires (forall k :: p(k) <==> k in Keys(fs)) && Agree(Obj(fs), Obj(gs), p, p)
    ensures SameHash(fs, gs)
  {
    SortedKeys(fs);
    SerializeDecides(Obj(fs), Obj(gs), AllowList(fs), AllowList(gs), p, p);
  }

  /**
   * The exact condition: a body's hash identifies it, up to key order, undefined fields and dates
   * written as text, if and only if there is no object below its top level.
   */
  lemma HashIdentifiesIffFlat(fs: seq<Field>)
    requires WellKeyed(Obj(fs))
    ensures (forall gs :: !Confused(fs, gs)) <==> Flat(fs)
  {
    if Flat(fs) {
      forall gs
        ensures !Confused(fs, gs)
      {
        if DistinctKeys(gs) && SameHash(fs, gs) { FlatBodiesTold(fs, gs); }
      }
    } else {
      var gs := NestedBodyConfused(fs);
    }
  }

  /** The body under which a decision is keyed. */
  function DecisionBody(applicationId: string, outcome: string): seq<Field> {
    [Field("applicationId", Str(applicationId)), Field("dto", Obj([Field("outcome", Str(outcome))]))]
  }

  /** An approval and a rejection of one application are one request to the idempotency check. */
  lemma DecisionBodiesCollide(applicationId: string)
    ensures SameHash(DecisionBody(applicationId, "approved"), DecisionBody(applicationId, "rejected"))
    ensures !SameBody(Obj(DecisionBody(applicationId, "approved")), Obj(DecisionBody(applicationId, "rejected")))
  {
    var fs, gs := DecisionBody(applicationId, "approved"), DecisionBody(applicationId, "rejected");
    var p: string -> bool := k => k in Keys(fs);
    assert Keys(fs) == Keys(gs) == ["applicationId", "dto"];
    assert "outcome"[0] == 'o' && "dto"[0] == 'd' && "applicationId"[0] == 'a';
    forall i | 0 <= i < 2
      ensures Agree(fs[i].value, gs[i].value, p, p)
    {
      if i == 1 {
        var x, y := fs[1].value.fields, gs[1].value.fields;
        forall k
          ensures AgreeAt(x, y, k, p, p)
        {
          assert p(k) ==> k != "outcome";
        }
      }
    }
    FieldsUnseen(fs, gs, "outcome", p);
    SameUnderOwnKeys(fs, gs, p);
    OutcomesDiffer(fs, gs);
  }

  lemma OutcomesDiffer(fs: seq<Field>, gs: seq<Field>)
    requires exists a :: fs == DecisionBody(a, "approved") && gs == DecisionBody(a, "rejected")
    ensures !SameBody(Obj(fs), Obj(gs))
  {
    var x, y := fs[1].value.fields, gs[1].value.fields;
    IndexUnique(x, 0);
    IndexUnique(y, 0);
    assert "approved"[0] == 'a' && "rejected"[0] == 'r';
    assert !AgreeAt(x, y, "outcome", Any, Any);
    assert "applicationId"[0] == 'a' && "dto"[0] == 'd';
    IndexUnique(fs, 1);
    IndexUnique(gs, 1);
    assert !AgreeAt(fs, gs, "dto", Any, Any);
  }
}
