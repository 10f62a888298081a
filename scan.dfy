/** The start-up scan: `readWindowIds` collects a window id for every
    directory the walk of `./fs` visits, and `windowsFromIds` reads each
    window's tag and content. */
module Scan {
  import opened Results
  import opened Text
  import opened Files
  import opened Panes

  /** The walk's root, as the walk reports it. */
  const Root: string := "./fs"

  /** One call of the walk's callback: a visited path, or the error the
      walk hands over instead. */
  datatype WalkEntry = Visit(path: string, isDir: bool) | WalkError(err: string)

  /** The window id of a walked path: the path less its first "fs/". A
      path that starts with "fs/" loses just that prefix; one without "fs/"
      anywhere is its own id. */
  function WindowIdOf(path: string): (r: string)
    ensures |path| >= 3 && path[..3] == "fs/" ==> r == path[3..]
    ensures (forall k :: 0 <= k <= |path| ==> !OccursAt(path, "fs/", k)) ==> r == path
  {
    RemoveFirst(path, "fs/")
  }

  /** A directory below the root, as the walk names it, gives the path
      relative to the root. */
  lemma WindowIdOfChild(rest: string)
    ensures WindowIdOf("fs/" + rest) == rest
  {
  }

  /** A walk that visits the root and then one directory "fs/<rest>" lists
      the single window `rest`, whatever characters it holds. */
  lemma FirstLevelScan(rest: string)
    ensures IdsAfter([Visit(Root, true), Visit("fs/" + rest, true)]) == Ok([rest])
  {
    var entries := [Visit(Root, true), Visit("fs/" + rest, true)];
    assert entries[..1] == [Visit(Root, true)] && entries[..1][..0] == [];
    assert IdsAfter(entries[..1]) == Ok([]);
    assert "fs/" + rest != Root by {
      assert |"fs/" + rest| >= 3 && ("fs/" + rest)[0] != Root[0];
    }
    WindowIdOfChild(rest);
    assert Recorded(entries[1]);
    assert IdsAfter(entries) == Ok([] + [rest]);
    assert [] + [rest] == [rest];
    assert IdsAfter(entries) == Ok([rest]);
  }

  /** Whether the callback records an id for this visit. */
  predicate Recorded(e: WalkEntry)
  {
    e.Visit? && e.isDir && e.path != Root
  }

  /** What `readWindowIds` returns after the callbacks `entries`: the first
      error stops the walk and is returned, otherwise the ids in visiting
      order. An error is the first error among the callbacks, and there
      are never more ids than callbacks. */
  function IdsAfter(entries: seq<WalkEntry>): (r: Result<seq<string>>)
    ensures r.Ok? ==> |r.value| <= |entries| && forall k :: 0 <= k < |entries| ==> !entries[k].WalkError?
    ensures r.Err? ==> exists k :: 0 <= k < |entries| && entries[k] == WalkError(r.error)
                        && forall j :: 0 <= j < k ==> !entries[j].WalkError?
  {
    if entries == [] then Ok([])
    else
      var e := entries[|entries| - 1];
      assert forall k :: 0 <= k < |entries| - 1 ==> entries[..|entries| - 1][k] == entries[k];
      match IdsAfter(entries[..|entries| - 1])
      case Err(msg) => Err(msg)
      case Ok(ids) =>
        if e.WalkError? then Err(e.err)
        else if Recorded(e) then Ok(ids + [WindowIdOf(e.path)])
        else Ok(ids)
  }

  /** `readWindowIds` over the walk's callbacks. */
  method ReadWindowIds(entries: seq<WalkEntry>) returns (r: Result<seq<string>>)
    ensures r == IdsAfter(entries)
  {
    var ids: seq<string> := [];
    for i := 0 to |entries|
      invariant IdsAfter(entries[..i]) == Ok(ids)
    {
      assert entries[..i + 1][..i] == entries[..i];
      var e := entries[i];
      if e.WalkError? {
        r := Err(e.err);
        StopsAtError(entries, i + 1);
        return;
      }
      if e.isDir && e.path != Root {
        ids := ids + [WindowIdOf(e.path)];
      }
    }
    assert entries[..|entries|] == entries;
    r := Ok(ids);
  }

  /** Once an error has been returned, later callbacks change nothing. */
  lemma {:induction false} StopsAtError(entries: seq<WalkEntry>, n: nat)
    requires n <= |entries| && IdsAfter(entries[..n]).Err?
    ensures IdsAfter(entries) == IdsAfter(entries[..n])
    decreases |entries| - n
  {
    if n < |entries| {
      assert entries[..n + 1][..n] == entries[..n];
      StopsAtError(entries, n + 1);
    } else {
      assert entries[..n] == entries;
    }
  }

  /** The scan succeeds exactly when no callback carries an error, and then
      an id is listed exactly when some non-root directory was visited
      whose path gives that id. */
  lemma {:induction false} IdsAfterSpec(entries: seq<WalkEntry>)
    ensures IdsAfter(entries).Ok? <==> forall k :: 0 <= k < |entries| ==> !entries[k].WalkError?
    ensures IdsAfter(entries).Ok? ==> forall id :: id in IdsAfter(entries).value <==>
              exists k :: 0 <= k < |entries| && Recorded(entries[k]) && WindowIdOf(entries[k].path) == id
  {
    if entries != [] {
      var p := entries[..|entries| - 1];
      IdsAfterSpec(p);
      assert forall k :: 0 <= k < |p| ==> p[k] == entries[k];
    }
  }

  /** `windowsFromIds`: one window per id, in order, with the tag and
      content read for it and the package-level `pwd` recorded. */
  method WindowsFromIds(tree: Tree, pwd: string, ids: seq<string>) returns (windows: seq<Window>)
    ensures |windows| == |ids|
    ensures forall i :: 0 <= i < |ids| ==>
      windows[i] == Window(ids[i], pwd, ReadWindowTag(tree, pwd, ids[i]), ReadWindowContent(tree, ids[i]))
  {
    windows := [];
    for i := 0 to |ids|
      invariant |windows| == i
      invariant forall j :: 0 <= j < i ==>
        windows[j] == Window(ids[j], pwd, ReadWindowTag(tree, pwd, ids[j]), ReadWindowContent(tree, ids[j]))
    {
      var window := Window(ids[i], pwd, ReadWindowTag(tree, pwd, ids[i]), ReadWindowContent(tree, ids[i]));
      windows := windows + [window];
    }
  }
}
