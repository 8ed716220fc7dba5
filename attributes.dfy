/**
 * The parameter values CreateTessellatedShape writes on each shape: the reserved names get
 * the object's id and type; every other name is set from the parent's attributes and then
 * from the object's own, so the own value wins.
 */
module Attributes {
  import opened Wrappers
  import opened CityModel

  const ObjectName: string := "Object Name"
  const ObjectType: string := "Object Type"

  /**
   * One scan of an attributes object: `Set` the parameter from every property named `p`, in
   * order. A composite value makes the `(string)` cast throw.
   */
  function SetFrom(attrs: seq<Attr>, p: string, current: Option<string>): Result<Option<string>> {
    if attrs == [] then Ok(current)
    else if attrs[0].name != p then SetFrom(attrs[1..], p, current)
    else match attrs[0].value
      case Composite => Err(InvalidCast)
      case Text(t) => SetFrom(attrs[1..], p, Some(t))
  }

  /** The value parameter `p` ends with on the shape of object `id` (None: never set). */
  function ResolveParam(p: string, id: string, objectType: string,
                        own: Option<seq<Attr>>, parent: Option<seq<Attr>>): Result<Option<string>>
  {
    if p == ObjectName then Ok(Some(id))
    else if p == ObjectType then Ok(Some(objectType))
    else
      var fromParent :- if parent.Some? then SetFrom(parent.value, p, None) else Ok(None);
      if own.None? then Ok(fromParent) else SetFrom(own.value, p, fromParent)
  }

  // ---- reference: the value an attributes object holds for a name ------------------------

  /** The value of the last property named `p`. */
  function LastNamed(attrs: seq<Attr>, p: string): Option<AttrValue> {
    if attrs == [] then None
    else if attrs[|attrs| - 1].name == p then Some(attrs[|attrs| - 1].value)
    else LastNamed(attrs[..|attrs| - 1], p)
  }

  predicate HasComposite(attrs: seq<Attr>, p: string) {
    exists k :: 0 <= k < |attrs| && attrs[k].name == p && attrs[k].value.Composite?
  }

  /** The text the scan of an attributes object leaves: the last value named `p`, else `current`. */
  function Overlay(attrs: Option<seq<Attr>>, p: string, current: Option<string>): Option<string> {
    if attrs.None? then current
    else match LastNamed(attrs.value, p)
      case Some(Text(t)) => Some(t)
      case _ => current
  }

  lemma {:induction false} LastNamedFront(attrs: seq<Attr>, p: string)
    requires attrs != []
    ensures LastNamed(attrs, p) ==
      match LastNamed(attrs[1..], p)
      case Some(v) => Some(v)
      case None => if attrs[0].name == p then Some(attrs[0].value) else None
  {
    if |attrs| > 1 {
      var init := attrs[..|attrs| - 1];
      LastNamedFront(init, p);
      assert init[1..] == attrs[1..][..|attrs[1..]| - 1];
      assert attrs[1..][|attrs[1..]| - 1] == attrs[|attrs| - 1];
    }
  }

  /** A scan fails exactly on a composite value under the name, and otherwise sets the last one. */
  lemma {:induction false} SetFromIs(attrs: seq<Attr>, p: string, current: Option<string>)
    ensures SetFrom(attrs, p, current) ==
      if HasComposite(attrs, p) then Err(InvalidCast) else Ok(Overlay(Some(attrs), p, current))
  {
    if attrs != [] {
      var rest := attrs[1..];
      var next := if attrs[0].name == p && attrs[0].value.Text? then Some(attrs[0].value.text) else current;
      SetFromIs(rest, p, next);
      LastNamedFront(attrs, p);
      if LastNamed(rest, p).Some? {
        LastNamedWitness(rest, p);
      }
      if HasComposite(rest, p) {
        var k :| 0 <= k < |rest| && rest[k].name == p && rest[k].value.Composite?;
        assert attrs[k + 1] == rest[k];
      }
      if HasComposite(attrs, p) {
        var k :| 0 <= k < |attrs| && attrs[k].name == p && attrs[k].value.Composite?;
        if k > 0 {
          assert rest[k - 1] == attrs[k];
        }
      }
    }
  }

  /** LastNamed reports a property that is there. */
  lemma {:induction false} LastNamedWitness(attrs: seq<Attr>, p: string)
    requires LastNamed(attrs, p).Some?
    ensures exists k :: 0 <= k < |attrs| && attrs[k].name == p && attrs[k].value == LastNamed(attrs, p).value
  {
    if attrs[|attrs| - 1].name != p {
      var init := attrs[..|attrs| - 1];
      LastNamedWitness(init, p);
      var k :| 0 <= k < |init| && init[k].name == p && init[k].value == LastNamed(init, p).value;
      assert attrs[k] == init[k];
    }
  }

  predicate Fails(attrs: Option<seq<Attr>>, p: string) {
    attrs.Some? && HasComposite(attrs.value, p)
  }

  /**
   * Precedence of a shape's parameter value: the reserved names get the id and the type;
   * any other name fails when the parent's or the own attributes hold a composite value under
   * it, and otherwise takes the own value, else the parent's, else stays unset.
   */
  lemma ResolveParamIs(p: string, id: string, objectType: string,
                       own: Option<seq<Attr>>, parent: Option<seq<Attr>>)
    ensures ResolveParam(p, id, objectType, own, parent) ==
      if p == ObjectName then Ok(Some(id))
      else if p == ObjectType then Ok(Some(objectType))
      else if Fails(parent, p) || Fails(own, p) then Err(InvalidCast)
      else Ok(Overlay(own, p, Overlay(parent, p, None)))
  {
    if parent.Some? {
      SetFromIs(parent.value, p, None);
    }
    if own.Some? {
      SetFromIs(own.value, p, Overlay(parent, p, None));
    }
  }

  /** The own value wins over the parent's. */
  lemma OwnWins(p: string, id: string, objectType: string, own: seq<Attr>, parent: Option<seq<Attr>>, t: string)
    requires p != ObjectName && p != ObjectType
    requires LastNamed(own, p) == Some(Text(t)) && !HasComposite(own, p) && !Fails(parent, p)
    ensures ResolveParam(p, id, objectType, Some(own), parent) == Ok(Some(t))
  {
    ResolveParamIs(p, id, objectType, Some(own), parent);
  }

  /** Without an own value, the parent's value is inherited. */
  lemma ParentInherited(p: string, id: string, objectType: string, own: Option<seq<Attr>>, parent: seq<Attr>, t: string)
    requires p != ObjectName && p != ObjectType
    requires own.Some? ==> LastNamed(own.value, p).None?
    requires LastNamed(parent, p) == Some(Text(t)) && !HasComposite(parent, p)
    ensures ResolveParam(p, id, objectType, own, Some(parent)) == Ok(Some(t))
  {
    ResolveParamIs(p, id, objectType, own, Some(parent));
    if own.Some? {
      assert !HasComposite(own.value, p) by {
        if HasComposite(own.value, p) {
          var k :| 0 <= k < |own.value| && own.value[k].name == p && own.value[k].value.Composite?;
          LastNamedSome(own.value, p, k);
        }
      }
    }
  }

  /** A property named `p` makes LastNamed defined. */
  lemma {:induction false} LastNamedSome(attrs: seq<Attr>, p: string, k: nat)
    requires k < |attrs| && attrs[k].name == p
    ensures LastNamed(attrs, p).Some?
  {
    if k < |attrs| - 1 {
      LastNamedSome(attrs[..|attrs| - 1], p, k);
    }
  }

  // ---- all parameters of one shape --------------------------------------------------------

  /** The loop over `parameters`: the map of every parameter that received a value. */
  function SettingsFrom(params: seq<string>, id: string, objectType: string, own: Option<seq<Attr>>,
                        parent: Option<seq<Attr>>, acc: map<string, string>): Result<map<string, string>>
  {
    if params == [] then Ok(acc)
    else match ResolveParam(params[0], id, objectType, own, parent)
      case Err(f) => Err(f)
      case Ok(None) => SettingsFrom(params[1..], id, objectType, own, parent, acc)
      case Ok(Some(v)) => SettingsFrom(params[1..], id, objectType, own, parent, acc[params[0] := v])
  }

  function Settings(params: seq<string>, id: string, objectType: string,
                    own: Option<seq<Attr>>, parent: Option<seq<Attr>>): Result<map<string, string>>
  {
    SettingsFrom(params, id, objectType, own, parent, map[])
  }

  method SetParameters(params: seq<string>, id: string, objectType: string,
                       own: Option<seq<Attr>>, parent: Option<seq<Attr>>)
    returns (r: Result<map<string, string>>)
    ensures r == Settings(params, id, objectType, own, parent)
  {
    var values: map<string, string> := map[];
    var i := 0;
    while i < |params|
      invariant 0 <= i <= |params|
      invariant Settings(params, id, objectType, own, parent) ==
        SettingsFrom(params[i..], id, objectType, own, parent, values)
    {
      assert params[i..][1..] == params[i + 1..];
      var v := ResolveParam(params[i], id, objectType, own, parent);
      if v.Err? {
        return Err(v.fault);
      }
      if v.value.Some? {
        values := values[params[i] := v.value.value];
      }
      i := i + 1;
    }
    return Ok(values);
  }

  /**
   * The shape's parameters: the run fails exactly when some parameter's value cannot be read;
   * otherwise the parameters with a value are exactly the keys, each holding its resolved value.
   */
  lemma {:induction false} SettingsFromAre(params: seq<string>, id: string, objectType: string, own: Option<seq<Attr>>,
                                           parent: Option<seq<Attr>>, acc: map<string, string>)
    ensures SettingsFrom(params, id, objectType, own, parent, acc).Ok? <==>
      forall k :: 0 <= k < |params| ==> ResolveParam(params[k], id, objectType, own, parent).Ok?
    ensures SettingsFrom(params, id, objectType, own, parent, acc).Ok? ==>
      var m := SettingsFrom(params, id, objectType, own, parent, acc).value;
      && (forall k :: 0 <= k < |params| && ResolveParam(params[k], id, objectType, own, parent).value.Some? ==>
            params[k] in m && m[params[k]] == ResolveParam(params[k], id, objectType, own, parent).value.value)
      && (forall q :: q in m && q !in acc ==> q in params)
      && (forall q :: q in acc && q !in params ==> q in m && m[q] == acc[q])
      && (forall k :: 0 <= k < |params| && ResolveParam(params[k], id, objectType, own, parent).value.None? ==>
            (params[k] in m <==> params[k] in acc))
  {
    if params != [] {
      var p := params[0];
      var v := ResolveParam(p, id, objectType, own, parent);
      var acc' := if v.Ok? && v.value.Some? then acc[p := v.value.value] else acc;
      SettingsFromAre(params[1..], id, objectType, own, parent, acc');
      forall k | 1 <= k < |params| ensures params[k] == params[1..][k - 1] { }
      if v.Ok? {
        assert SettingsFrom(params, id, objectType, own, parent, acc) ==
          SettingsFrom(params[1..], id, objectType, own, parent, acc');
      }
    }
  }
}
