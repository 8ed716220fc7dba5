/**
 * The `loadedFiles` project parameter: the paths of all imported files joined with '$'.
 * Program.checkExist splits it (dropping empty pieces) and looks for the chosen path;
 * a successful import appends '$' and the path.
 */
module LoadedFiles {

  const Separator: char := '$'

  /** A path that survives a round trip through the record: non-empty and free of '$'. */
  predicate Clean(path: string) {
    path != [] && Separator !in path
  }

  /** Splitting the rest `s` of the record while the piece `cur` is open. */
  function Pieces(s: string, cur: string): (ps: seq<string>)
    ensures forall k :: 0 <= k < |ps| ==> |ps[k]| > 0
    ensures Separator !in cur ==> forall k :: 0 <= k < |ps| ==> Separator !in ps[k]
  {
    if s == [] then (if cur == [] then [] else [cur])
    else if s[0] == Separator then (if cur == [] then [] else [cur]) + Pieces(s[1..], [])
    else Pieces(s[1..], cur + [s[0]])
  }

  /** `Split(new[] { '$' }, StringSplitOptions.RemoveEmptyEntries)`. */
  function Split(s: string): (ps: seq<string>)
    ensures forall k :: 0 <= k < |ps| ==> Clean(ps[k])
  {
    Pieces(s, [])
  }

  /** Program.checkExist. */
  method CheckExist(filepath: string, loadedFiles: string) returns (found: bool)
    ensures found <==> filepath in Split(loadedFiles)
  {
    var lfs := Split(loadedFiles);
    var i := 0;
    while i < |lfs|
      invariant 0 <= i <= |lfs|
      invariant filepath !in lfs[..i]
    {
      if lfs[i] == filepath {
        return true;
      }
      assert lfs[..i + 1] == lfs[..i] + [lfs[i]];
      i := i + 1;
    }
    assert lfs[..i] == lfs;
    return false;
  }

  /** The record after a successful import of `path`. */
  function RecordLoaded(files: string, path: string): (r: string)
    ensures |r| == |files| + 1 + |path|
  {
    files + [Separator] + path
  }

  /** A separator closes the open piece, so the record splits into its two halves. */
  lemma {:induction false} PiecesAppend(a: string, b: string, cur: string)
    ensures Pieces(a + [Separator] + b, cur) == Pieces(a, cur) + Pieces(b, [])
  {
    if a == [] {
      assert a + [Separator] + b == [Separator] + b;
      assert ([Separator] + b)[1..] == b;
    } else {
      assert (a + [Separator] + b)[1..] == a[1..] + [Separator] + b;
      if a[0] == Separator {
        PiecesAppend(a[1..], b, []);
      } else {
        PiecesAppend(a[1..], b, cur + [a[0]]);
      }
    }
  }

  /** A path without separators is one piece: itself. */
  lemma {:induction false} PiecesOfClean(path: string, cur: string)
    requires Separator !in path && cur + path != []
    ensures Pieces(path, cur) == [cur + path]
  {
    if path != [] {
      assert path[0] in path;
      assert cur + [path[0]] + path[1..] == cur + path;
      PiecesOfClean(path[1..], cur + [path[0]]);
    } else {
      assert cur + path == cur;
    }
  }

  /** Recording a path adds exactly its pieces after those already recorded. */
  lemma RecordSplits(files: string, path: string)
    ensures Split(RecordLoaded(files, path)) == Split(files) + Split(path)
  {
    PiecesAppend(files, path, []);
  }

  /** Recording a clean path adds exactly that path. */
  lemma RecordClean(files: string, path: string)
    requires Clean(path)
    ensures Split(RecordLoaded(files, path)) == Split(files) + [path]
  {
    RecordSplits(files, path);
    PiecesOfClean(path, []);
    assert [] + path == path;
  }

  /** Once a clean path is recorded it is reported loaded, and so is everything recorded before. */
  lemma RecordedIsFound(files: string, path: string, other: string)
    requires Clean(path)
    ensures path in Split(RecordLoaded(files, path))
    ensures other in Split(files) ==> other in Split(RecordLoaded(files, path))
  {
    RecordClean(files, path);
  }

  /** The record of the clean paths `ps`, imported one after another into an empty record. */
  function History(ps: seq<string>): string {
    if ps == [] then [] else RecordLoaded(History(ps[..|ps| - 1]), ps[|ps| - 1])
  }

  /** The record of clean paths splits back into exactly those paths, in import order. */
  lemma {:induction false} HistorySplits(ps: seq<string>)
    requires forall k :: 0 <= k < |ps| ==> Clean(ps[k])
    ensures Split(History(ps)) == ps
  {
    if ps != [] {
      var init := ps[..|ps| - 1];
      HistorySplits(init);
      RecordClean(History(init), ps[|ps| - 1]);
      assert init + [ps[|ps| - 1]] == ps;
    }
  }

  /** A path containing '$' is split apart, so it is never reported as loaded. */
  lemma DollarPathNeverFound(files: string, before: string, after: string)
    requires before != [] && after != [] && Separator !in before && Separator !in after
    ensures before + [Separator] + after !in Split(RecordLoaded(files, before + [Separator] + after))
  {
    var path := before + [Separator] + after;
    RecordSplits(files, path);
    assert path[|before|] == Separator;
  }
}
