/**
 * Program.paramFinder: the names of the shared parameters the import creates, which are
 * every attribute name of every city object followed by the three reserved names, with
 * duplicates removed in first-seen order.
 */
module Parameters {
  import opened CityModel
  import opened Seqs
  import Attributes

  /** The project parameter that records the paths of the files already imported. */
  const LoadedFiles: string := "loadedFiles"

  const Reserved: seq<string> := [Attributes.ObjectName, Attributes.ObjectType, LoadedFiles]

  function NamesOf(attrs: seq<Attr>): (names: seq<string>)
    ensures |names| == |attrs|
    ensures forall k :: 0 <= k < |attrs| ==> names[k] == attrs[k].name
  {
    seq(|attrs|, k requires 0 <= k < |attrs| => attrs[k].name)
  }

  function OwnNames(o: CityObject): seq<string> {
    if o.attributes.Some? then NamesOf(o.attributes.value) else []
  }

  /** The attribute names of all objects in document order, repeats included. */
  function AttributeNames(es: seq<Entry>): seq<string> {
    if es == [] then [] else OwnNames(es[0].obj) + AttributeNames(es[1..])
  }

  function ParameterNames(es: seq<Entry>): seq<string> {
    Dedup(AttributeNames(es) + Reserved)
  }

  method ParamFinder(es: seq<Entry>) returns (parameters: seq<string>)
    ensures parameters == ParameterNames(es)
  {
    parameters := [];
    var i := 0;
    while i < |es|
      invariant 0 <= i <= |es|
      invariant AttributeNames(es) == parameters + AttributeNames(es[i..])
    {
      var o := es[i].obj;
      assert AttributeNames(es[i..]) == OwnNames(o) + AttributeNames(es[i + 1..]) by {
        assert es[i..][1..] == es[i + 1..];
      }
      ghost var before := parameters;
      if o.attributes.Some? {
        parameters := AddNames(parameters, o.attributes.value);
      }
      assert parameters + AttributeNames(es[i + 1..]) == before + AttributeNames(es[i..]);
      i := i + 1;
    }
    assert AttributeNames(es[i..]) == [];
    assert parameters == AttributeNames(es);
    parameters := parameters + Reserved;
    parameters := Dedup(parameters);
  }

  /** The inner loop of paramFinder: add the name of every property of one object. */
  method AddNames(names: seq<string>, attrs: seq<Attr>) returns (r: seq<string>)
    ensures r == names + NamesOf(attrs)
  {
    r := names;
    var j := 0;
    while j < |attrs|
      invariant 0 <= j <= |attrs|
      invariant r == names + NamesOf(attrs)[..j]
    {
      assert NamesOf(attrs)[..j + 1] == NamesOf(attrs)[..j] + [attrs[j].name];
      r := r + [attrs[j].name];
      j := j + 1;
    }
    assert NamesOf(attrs)[..j] == NamesOf(attrs);
  }

  /** A name is an attribute name exactly when some object's `attributes` has a property of that name. */
  lemma {:induction false} AttributeNamesMember(es: seq<Entry>, x: string)
    ensures x in AttributeNames(es) <==>
      exists i, k :: 0 <= i < |es| && es[i].obj.attributes.Some? && 0 <= k < |es[i].obj.attributes.value| &&
        es[i].obj.attributes.value[k].name == x
  {
    if es != [] {
      AttributeNamesMember(es[1..], x);
      if x in OwnNames(es[0].obj) {
        var k :| 0 <= k < |OwnNames(es[0].obj)| && OwnNames(es[0].obj)[k] == x;
        assert es[0].obj.attributes.value[k].name == x;
      }
      if x in AttributeNames(es[1..]) {
        var i, k :| 0 <= i < |es[1..]| && es[1..][i].obj.attributes.Some? &&
          0 <= k < |es[1..][i].obj.attributes.value| && es[1..][i].obj.attributes.value[k].name == x;
        assert es[i + 1] == es[1..][i];
      }
      if exists i, k :: 0 <= i < |es| && es[i].obj.attributes.Some? && 0 <= k < |es[i].obj.attributes.value| &&
           es[i].obj.attributes.value[k].name == x {
        var i, k :| 0 <= i < |es| && es[i].obj.attributes.Some? && 0 <= k < |es[i].obj.attributes.value| &&
          es[i].obj.attributes.value[k].name == x;
        if i == 0 {
          assert OwnNames(es[0].obj)[k] == x;
        } else {
          assert es[1..][i - 1] == es[i];
        }
      }
    }
  }

  /**
   * paramFinder's list holds every attribute name and the three reserved names, and nothing
   * else.
   */
  lemma ParameterNamesMember(es: seq<Entry>, x: string)
    ensures x in ParameterNames(es) <==>
      x in Reserved ||
      exists i, k :: 0 <= i < |es| && es[i].obj.attributes.Some? && 0 <= k < |es[i].obj.attributes.value| &&
        es[i].obj.attributes.value[k].name == x
  {
    DedupMember(AttributeNames(es) + Reserved, x);
    AttributeNamesMember(es, x);
  }

  /** paramFinder's list holds no name twice. */
  lemma ParameterNamesDistinct(es: seq<Entry>)
    ensures NoDups(ParameterNames(es))
  {
    DedupNoDups(AttributeNames(es) + Reserved);
  }

  /**
   * paramFinder's list keeps first-seen order: of two names in it, the earlier one first
   * occurs earlier among the attribute names followed by the reserved names.
   */
  lemma ParameterNamesOrder(es: seq<Entry>, i: nat, j: nat)
    requires i < j < |ParameterNames(es)|
    ensures ParameterNames(es)[i] in AttributeNames(es) + Reserved
    ensures ParameterNames(es)[j] in AttributeNames(es) + Reserved
    ensures FirstIndex(AttributeNames(es) + Reserved, ParameterNames(es)[i]) <
            FirstIndex(AttributeNames(es) + Reserved, ParameterNames(es)[j])
  {
    DedupFirstSeenOrder(AttributeNames(es) + Reserved, i, j);
  }
}
