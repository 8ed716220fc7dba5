/**
 * The parent-attribute map Execute fills before building shapes: every child listed by an
 * object that has both `children` and `attributes` is mapped to that object's attributes,
 * with `Dictionary.Add`, which throws on a key it already holds.
 */
module ParentMap {
  import opened Wrappers
  import opened CityModel

  /** One `Add(child, attributes)` the loop performs. */
  datatype Declaration = Declaration(child: string, attributes: seq<Attr>)

  predicate Declares(o: CityObject) {
    o.children.Some? && o.attributes.Some?
  }

  /** The additions for one object's `children`, each mapped to its `attributes`. */
  function DeclareChildren(children: seq<string>, attributes: seq<Attr>): (ds: seq<Declaration>)
    ensures |ds| == |children|
    ensures forall k :: 0 <= k < |children| ==> ds[k] == Declaration(children[k], attributes)
  {
    seq(|children|, k requires 0 <= k < |children| => Declaration(children[k], attributes))
  }

  /** The additions one object contributes: none unless it has both `children` and `attributes`. */
  function Declare(o: CityObject): seq<Declaration> {
    if Declares(o) then DeclareChildren(o.children.value, o.attributes.value) else []
  }

  /** The additions of the whole `CityObjects` dictionary, in document order. */
  function Declarations(es: seq<Entry>): seq<Declaration> {
    if es == [] then [] else Declare(es[0].obj) + Declarations(es[1..])
  }

  /** `Dictionary.Add` of each declaration in turn; the first repeated key throws. */
  function AddAll(m: map<string, seq<Attr>>, ds: seq<Declaration>): Result<map<string, seq<Attr>>>
    decreases |ds|
  {
    if ds == [] then Ok(m)
    else if ds[0].child in m then Err(DuplicateKey)
    else AddAll(m[ds[0].child := ds[0].attributes], ds[1..])
  }

  function ParentMapOf(es: seq<Entry>): Result<map<string, seq<Attr>>> {
    AddAll(map[], Declarations(es))
  }

  /** The loops of Execute that fill `semanticParentInfo`. */
  method BuildParentMap(es: seq<Entry>) returns (r: Result<map<string, seq<Attr>>>)
    ensures r == ParentMapOf(es)
  {
    var m: map<string, seq<Attr>> := map[];
    var i := 0;
    while i < |es|
      invariant 0 <= i <= |es|
      invariant ParentMapOf(es) == AddAll(m, Declarations(es[i..]))
    {
      assert es[i..][1..] == es[i + 1..];
      var o := es[i].obj;
      AddAllAppend(m, Declare(o), Declarations(es[i + 1..]));
      if o.children.Some? && o.attributes.Some? {
        var added := AddChildren(m, o.children.value, o.attributes.value);
        if added.Err? {
          return added;
        }
        m := added.value;
      } else {
        assert Declare(o) + Declarations(es[i + 1..]) == Declarations(es[i + 1..]);
      }
      i := i + 1;
    }
    return Ok(m);
  }

  /** The inner loop: add every child of one object, each mapped to that object's attributes. */
  method AddChildren(m0: map<string, seq<Attr>>, children: seq<string>, attributes: seq<Attr>)
    returns (r: Result<map<string, seq<Attr>>>)
    ensures r == AddAll(m0, DeclareChildren(children, attributes))
  {
    ghost var own := DeclareChildren(children, attributes);
    var m := m0;
    var j := 0;
    while j < |children|
      invariant 0 <= j <= |children|
      invariant AddAll(m0, own) == AddAll(m, own[j..])
    {
      assert own[j..][1..] == own[j + 1..];
      if children[j] in m {
        return Err(DuplicateKey);
      }
      m := m[children[j] := attributes];
      j := j + 1;
    }
    return Ok(m);
  }

  /** Adding two runs of declarations is adding the first, then the second to its result. */
  lemma {:induction false} AddAllAppend(m: map<string, seq<Attr>>, a: seq<Declaration>, b: seq<Declaration>)
    ensures AddAll(m, a + b) == match AddAll(m, a) case Err(f) => Err(f) case Ok(m') => AddAll(m', b)
    decreases |a|
  {
    if a != [] {
      assert (a + b)[1..] == a[1..] + b;
      if a[0].child !in m {
        AddAllAppend(m[a[0].child := a[0].attributes], a[1..], b);
      }
    } else {
      assert a + b == b;
    }
  }

  // ---- what the map holds -------------------------------------------------------------

  predicate DistinctChildren(ds: seq<Declaration>) {
    forall a, b :: 0 <= a < b < |ds| ==> ds[a].child != ds[b].child
  }

  /** Adding succeeds exactly when no key repeats, among the additions or with the start map. */
  lemma {:induction false} AddAllSucceeds(m: map<string, seq<Attr>>, ds: seq<Declaration>)
    ensures AddAll(m, ds).Ok? <==>
      DistinctChildren(ds) && forall k :: 0 <= k < |ds| ==> ds[k].child !in m
    decreases |ds|
  {
    if ds != [] {
      var m' := m[ds[0].child := ds[0].attributes];
      AddAllSucceeds(m', ds[1..]);
      if ds[0].child !in m && AddAll(m', ds[1..]).Ok? {
        forall a, b | 0 <= a < b < |ds| ensures ds[a].child != ds[b].child {
          if a > 0 { assert ds[a].child == ds[1..][a - 1].child; }
          assert ds[b].child == ds[1..][b - 1].child;
        }
      }
      if DistinctChildren(ds) && forall k :: 0 <= k < |ds| ==> ds[k].child !in m {
        forall k | 0 <= k < |ds[1..]| ensures ds[1..][k].child !in m' {
          assert ds[1..][k] == ds[k + 1];
        }
      }
    }
  }

  /** A successful run maps each added child to its attributes and keeps the start map. */
  lemma {:induction false} AddAllContents(m: map<string, seq<Attr>>, ds: seq<Declaration>)
    requires AddAll(m, ds).Ok?
    ensures AddAll(m, ds).value.Keys == m.Keys + set d | d in ds :: d.child
    ensures forall d :: d in ds ==> AddAll(m, ds).value[d.child] == d.attributes
    ensures forall c :: c in m ==> AddAll(m, ds).value[c] == m[c]
    decreases |ds|
  {
    if ds != [] {
      var m' := m[ds[0].child := ds[0].attributes];
      AddAllContents(m', ds[1..]);
      AddAllSucceeds(m, ds);
      var r := AddAll(m, ds).value;
      assert r == AddAll(m', ds[1..]).value;
      assert (set d | d in ds :: d.child) == {ds[0].child} + set d | d in ds[1..] :: d.child by {
        assert ds == [ds[0]] + ds[1..];
      }
      forall d | d in ds ensures r[d.child] == d.attributes {
        if d != ds[0] {
          assert d in ds[1..];
        }
      }
    }
  }

  /** Every child of every object that has both `children` and `attributes` is declared. */
  lemma {:induction false} DeclaredChild(es: seq<Entry>, i: nat, k: nat)
    requires i < |es| && Declares(es[i].obj) && k < |es[i].obj.children.value|
    ensures Declaration(es[i].obj.children.value[k], es[i].obj.attributes.value) in Declarations(es)
  {
    if i == 0 {
      assert Declare(es[0].obj)[k] == Declaration(es[i].obj.children.value[k], es[i].obj.attributes.value);
    } else {
      DeclaredChild(es[1..], i - 1, k);
      assert es[1..][i - 1] == es[i];
    }
  }

  /** Every declaration is a child of some object that has both, with that object's attributes. */
  lemma {:induction false} DeclarationSource(es: seq<Entry>, d: Declaration)
    requires d in Declarations(es)
    ensures exists i, k ::
      (0 <= i < |es| && Declares(es[i].obj) && 0 <= k < |es[i].obj.children.value| &&
       d == Declaration(es[i].obj.children.value[k], es[i].obj.attributes.value))
  {
    if d in Declare(es[0].obj) {
      var k :| 0 <= k < |Declare(es[0].obj)| && Declare(es[0].obj)[k] == d;
      assert Declares(es[0].obj) && d == Declaration(es[0].obj.children.value[k], es[0].obj.attributes.value);
    } else {
      DeclarationSource(es[1..], d);
      var i, k :| 0 <= i < |es[1..]| && Declares(es[1..][i].obj) && 0 <= k < |es[1..][i].obj.children.value| &&
        d == Declaration(es[1..][i].obj.children.value[k], es[1..][i].obj.attributes.value);
      assert es[1..][i] == es[i + 1];
    }
  }

  /** The map is built exactly when no child is declared twice, whoever declares it. */
  lemma ParentMapSucceeds(es: seq<Entry>)
    ensures ParentMapOf(es).Ok? <==> DistinctChildren(Declarations(es))
  {
    AddAllSucceeds(map[], Declarations(es));
  }

  /**
   * A declared child maps to the attributes of the object that lists it among its
   * `children`, and nothing that is not a declared child is a key.
   */
  lemma ParentMapContents(es: seq<Entry>)
    requires ParentMapOf(es).Ok?
    ensures ParentMapOf(es).value.Keys == set d | d in Declarations(es) :: d.child
    ensures forall i, k :: 0 <= i < |es| && Declares(es[i].obj) && 0 <= k < |es[i].obj.children.value| ==>
      es[i].obj.children.value[k] in ParentMapOf(es).value &&
      ParentMapOf(es).value[es[i].obj.children.value[k]] == es[i].obj.attributes.value
  {
    AddAllContents(map[], Declarations(es));
    forall i, k | 0 <= i < |es| && Declares(es[i].obj) && 0 <= k < |es[i].obj.children.value|
      ensures es[i].obj.children.value[k] in ParentMapOf(es).value &&
        ParentMapOf(es).value[es[i].obj.children.value[k]] == es[i].obj.attributes.value
    {
      DeclaredChild(es, i, k);
    }
  }
}
