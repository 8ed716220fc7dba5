/**
 * Program.lodSelecter: collect the `lod` label of every geometry of every city object,
 * remove duplicates, and resolve to the single label, to the failure sentinel, or to the
 * choice of the LoD dialog.
 */
module LodSelection {
  import opened Wrappers
  import opened CityModel
  import opened Seqs

  /** The string lodSelecter returns when a geometry has no `lod` (a templated geometry). */
  const Failed: string := "Failed"

  /** The labels of a geometry array in order, or None once a geometry lacks `lod`. */
  function GeometryLabels(gs: seq<Geometry>, acc: seq<string>): Option<seq<string>>
  {
    if gs == [] then Some(acc)
    else if gs[0].lod.None? then None
    else GeometryLabels(gs[1..], acc + [gs[0].lod.value])
  }

  /** The labels of all objects from `es` on, appended to `acc`; objects without geometry add none. */
  function DocumentLabels(es: seq<Entry>, acc: seq<string>): Option<seq<string>>
  {
    if es == [] then Some(acc)
    else if es[0].obj.geometry.None? then DocumentLabels(es[1..], acc)
    else match GeometryLabels(es[0].obj.geometry.value, acc)
      case None => None
      case Some(acc') => DocumentLabels(es[1..], acc')
  }

  /** What lodSelecter returns, with the dialog given as `choose`. */
  function SelectLod(es: seq<Entry>, choose: seq<string> -> string): string
  {
    match DocumentLabels(es, [])
    case None => Failed
    case Some(labels) =>
      var distinct := Dedup(labels);
      if |distinct| == 1 then distinct[0] else choose(distinct)
  }

  method LodSelecter(es: seq<Entry>, choose: seq<string> -> string) returns (level: string)
    ensures level == SelectLod(es, choose)
  {
    var lods: seq<string> := [];
    var i := 0;
    while i < |es|
      invariant 0 <= i <= |es|
      invariant DocumentLabels(es, []) == DocumentLabels(es[i..], lods)
    {
      assert es[i..][1..] == es[i + 1..];
      var obj := es[i].obj;
      if obj.geometry.Some? {
        var gs := obj.geometry.value;
        ghost var before := lods;
        var j := 0;
        while j < |gs|
          invariant 0 <= j <= |gs|
          invariant GeometryLabels(gs, before) == GeometryLabels(gs[j..], lods)
        {
          assert gs[j..][1..] == gs[j + 1..];
          if gs[j].lod.None? {
            return Failed;
          }
          lods := lods + [gs[j].lod.value];
          j := j + 1;
        }
      }
      i := i + 1;
    }
    lods := Dedup(lods);
    if |lods| == 1 {
      level := lods[0];
    } else {
      level := choose(lods);
    }
  }

  // ---- a reference definition of the labels and what lodSelecter decides -----------

  /** Some geometry of the array has no `lod`. */
  ghost predicate HasUnlabelled(gs: seq<Geometry>) {
    exists k :: 0 <= k < |gs| && gs[k].lod.None?
  }

  /** Some geometry of some object has no `lod`. */
  ghost predicate MissingLod(es: seq<Entry>) {
    exists i :: 0 <= i < |es| && es[i].obj.geometry.Some? && HasUnlabelled(es[i].obj.geometry.value)
  }

  /** The labels of a geometry array, in order, skipping missing ones. */
  function LabelsOf(gs: seq<Geometry>): seq<string>
  {
    if gs == [] then []
    else (if gs[0].lod.Some? then [gs[0].lod.value] else []) + LabelsOf(gs[1..])
  }

  /** Every label of the document, object by object, in document order. */
  function Labels(es: seq<Entry>): seq<string>
  {
    if es == [] then []
    else (if es[0].obj.geometry.Some? then LabelsOf(es[0].obj.geometry.value) else []) + Labels(es[1..])
  }

  lemma {:induction false} GeometryLabelsAre(gs: seq<Geometry>, acc: seq<string>)
    ensures GeometryLabels(gs, acc).None? <==> HasUnlabelled(gs)
    ensures GeometryLabels(gs, acc).Some? ==> GeometryLabels(gs, acc).value == acc + LabelsOf(gs)
  {
    if gs != [] {
      UnlabelledStep(gs);
      if gs[0].lod.Some? {
        var l0 := gs[0].lod.value;
        GeometryLabelsAre(gs[1..], acc + [l0]);
        assert LabelsOf(gs) == [l0] + LabelsOf(gs[1..]);
        assert acc + [l0] + LabelsOf(gs[1..]) == acc + LabelsOf(gs);
      }
    }
  }

  lemma UnlabelledStep(gs: seq<Geometry>)
    requires gs != []
    ensures HasUnlabelled(gs) <==> gs[0].lod.None? || HasUnlabelled(gs[1..])
  {
    if HasUnlabelled(gs[1..]) {
      var k :| 0 <= k < |gs[1..]| && gs[1..][k].lod.None?;
      assert gs[k + 1].lod.None?;
    }
    if HasUnlabelled(gs) {
      var k :| 0 <= k < |gs| && gs[k].lod.None?;
      if k > 0 { assert gs[1..][k - 1].lod.None?; }
    }
  }

  lemma MissingLodStep(es: seq<Entry>)
    requires es != []
    ensures MissingLod(es) <==>
      (es[0].obj.geometry.Some? && HasUnlabelled(es[0].obj.geometry.value)) || MissingLod(es[1..])
  {
    if MissingLod(es[1..]) {
      var i :| 0 <= i < |es[1..]| && es[1..][i].obj.geometry.Some? && HasUnlabelled(es[1..][i].obj.geometry.value);
      assert es[i + 1] == es[1..][i];
    }
    if MissingLod(es) {
      var i :| 0 <= i < |es| && es[i].obj.geometry.Some? && HasUnlabelled(es[i].obj.geometry.value);
      if i > 0 { assert es[1..][i - 1] == es[i]; }
    }
  }

  /** The label collection fails exactly on a missing `lod`, and otherwise lists every label. */
  lemma {:induction false} DocumentLabelsAre(es: seq<Entry>, acc: seq<string>)
    ensures DocumentLabels(es, acc).None? <==> MissingLod(es)
    ensures DocumentLabels(es, acc).Some? ==> DocumentLabels(es, acc).value == acc + Labels(es)
  {
    if es != [] {
      MissingLodStep(es);
      var o := es[0].obj;
      if o.geometry.Some? {
        GeometryLabelsAre(o.geometry.value, acc);
        if GeometryLabels(o.geometry.value, acc).Some? {
          DocumentLabelsAre(es[1..], acc + LabelsOf(o.geometry.value));
        }
      } else {
        DocumentLabelsAre(es[1..], acc);
      }
    }
  }

  /** lodSelecter fails as soon as one geometry lacks `lod`, whatever labels it met before. */
  lemma SelectLodFails(es: seq<Entry>, choose: seq<string> -> string)
    requires MissingLod(es)
    ensures SelectLod(es, choose) == Failed
  {
    DocumentLabelsAre(es, []);
  }

  /** When every label is the same, lodSelecter returns it, whatever the dialog would pick. */
  lemma SelectLodSingle(es: seq<Entry>, choose: seq<string> -> string)
    requires !MissingLod(es) && Labels(es) != []
    requires forall k :: 0 <= k < |Labels(es)| ==> Labels(es)[k] == Labels(es)[0]
    ensures SelectLod(es, choose) == Labels(es)[0]
  {
    DocumentLabelsAre(es, []);
    var ls := Labels(es);
    assert [] + ls == ls;
    DedupSingleton(ls, ls[0]);
  }

  /**
   * With no label at all, or with two different ones, lodSelecter returns the dialog's pick
   * from the labels without duplicates (which Dedup lists in first-seen order).
   */
  lemma SelectLodDefers(es: seq<Entry>, choose: seq<string> -> string)
    requires !MissingLod(es)
    requires Labels(es) == [] || exists a, b :: 0 <= a < b < |Labels(es)| && Labels(es)[a] != Labels(es)[b]
    ensures SelectLod(es, choose) == choose(Dedup(Labels(es)))
  {
    DocumentLabelsAre(es, []);
    var ls := Labels(es);
    assert [] + ls == ls;
    assert DocumentLabels(es, []) == Some(ls);
    if ls != [] {
      var a, b :| 0 <= a < b < |ls| && ls[a] != ls[b];
      DedupNotSingle(ls, a, b);
    } else {
      assert Dedup(ls) == [];
    }
  }
}
