/** The two watcher loops of `main`, one event at a time: what the root
    watcher decides to do with the views for an event, what the per-window
    watcher does, and how a decision changes the set of live views. */
module Watch {
  import opened Results
  import opened Text
  import opened Files
  import opened Panes
  import Scan

  /** The bits of an fsnotify operation. */
  datatype OpFlag = Create | Write | Remove | Rename | Chmod

  /** An fsnotify operation is a set of bits; `event.Op == fsnotify.Remove`
      holds only of the set that is exactly {Remove}. */
  type Op = set<OpFlag>

  datatype Event = Event(name: string, op: Op)

  /** What handling one event amounts to. `Ignore` is the `continue` for a
      path that is a file; `NoAction` is falling out of the loop body
      without a case; `Crash` is a panic (a failed stat, or a path with no
      second '/'-segment). */
  datatype Action =
    | Ignore
    | DeleteView(id: string)
    | CreateView(win: Window)
    | NoAction
    | Crash(reason: string)

  /** The second '/'-separated segment of a path, if there is one. */
  function SecondSegment(path: string): (r: Option<string>)
    ensures r.Some? <==> '/' in path
  {
    var chunks := Split(path, '/');
    CountPositive(path, '/');
    if |chunks| < 2 then None else Some(chunks[1])
  }

  /** A root event names the window directory "fs/<name>" or a path
      inside it; the second segment is the window's name. */
  lemma SecondSegmentOfWindowPath(name: string, rest: string)
    requires '/' !in name
    ensures SecondSegment("fs/" + name) == Some(name)
    ensures SecondSegment("fs/" + name + "/" + rest) == Some(name)
  {
    NoSepSplit("fs", '/');
    NoSepSplit(name, '/');
    SplitAround("fs", name, '/');
    assert "fs/" + name == "fs" + ['/'] + name;
    SplitAround(name, rest, '/');
    SplitAround("fs", name + "/" + rest, '/');
    assert "fs/" + name + "/" + rest == "fs" + ['/'] + (name + ['/'] + rest);
  }

  /** The first watcher goroutine's body for one event. `pwd` is the value
      of the package-level `pwd` (what `readWindowTag` sees); `mainPwd` is
      `main`'s local working directory, which the closure records in the
      new window. Whatever it decides acts on the path's second segment: a
      view is created only for an operation that is exactly Create on a
      directory, and records `main`'s directory; one is deleted only when
      the path is missing or the operation is exactly Remove; a file with a
      second segment is ignored. */
  function RootEventAction(tree: Tree, pwd: string, mainPwd: string, ev: Event): (a: Action)
    ensures a.DeleteView? ==>
      SecondSegment(ev.name) == Some(a.id) &&
      (StatPath(tree, ev.name) == Ok(Missing) || (StatPath(tree, ev.name) == Ok(IsDir) && ev.op == {Remove}))
    ensures a.CreateView? ==>
      SecondSegment(ev.name) == Some(a.win.id) && a.win.pwd == mainPwd &&
      StatPath(tree, ev.name) == Ok(IsDir) && ev.op == {Create}
    ensures a == Ignore <==> StatPath(tree, ev.name) == Ok(IsFile) && '/' in ev.name
  {
    match StatPath(tree, ev.name)
    case Err(msg) => Crash("error 1 " + ev.name + msg)
    case Ok(kind) =>
      match SecondSegment(ev.name)
      case None => Crash("index out of range")
      case Some(id) =>
        var content := ReadWindowContent(tree, id);
        var tag := ReadWindowTag(tree, pwd, id);
        if kind == IsFile then Ignore
        else if kind == Missing || ev.op == {Remove} then DeleteView(id)
        else if ev.op == {Create} then CreateView(Window(id, mainPwd, tag, content))
        else NoAction
  }

  /** The decision table of the root watcher, for a readable path with a
      second segment `id`: a file is ignored whatever the operation; a
      missing path or an operation that is exactly Remove deletes the view;
      an operation that is exactly Create on a directory creates it, with
      the tag and content read for `id`; any other operation on a directory
      does nothing. */
  lemma RootDecisionTable(tree: Tree, pwd: string, mainPwd: string, ev: Event, id: string)
    requires StatPath(tree, ev.name).Ok? && SecondSegment(ev.name) == Some(id)
    ensures var a := RootEventAction(tree, pwd, mainPwd, ev);
      var kind := StatPath(tree, ev.name).value;
      && (kind == IsFile <==> a == Ignore)
      && (a == DeleteView(id) <==> kind == Missing || (kind == IsDir && ev.op == {Remove}))
      && (a.CreateView? <==> kind == IsDir && ev.op == {Create})
      && (a.CreateView? ==> a.win == Window(id, mainPwd, ReadWindowTag(tree, pwd, id), ReadWindowContent(tree, id)))
      && (a == NoAction <==> kind == IsDir && ev.op != {Create} && ev.op != {Remove})
      && !a.Crash?
  {
  }

  /** The root watcher panics on a failed stat and on a path without a
      second segment, such as an event for the root "fs" itself. */
  lemma RootEventCrashes(tree: Tree, pwd: string, mainPwd: string, ev: Event)
    ensures RootEventAction(tree, pwd, mainPwd, ev).Crash?
        <==> StatPath(tree, ev.name).Err? || '/' !in ev.name
  {
  }

  /** The second watcher goroutine's body for one event: it panics on a
      failed stat, skips directories and otherwise does nothing. */
  function WindowEventAction(tree: Tree, ev: Event): (a: Action)
    ensures a.Crash? <==> StatPath(tree, ev.name).Err?
    ensures !a.DeleteView? && !a.CreateView?
  {
    match StatPath(tree, ev.name)
    case Err(msg) => Crash("error 1 " + ev.name + msg)
    case Ok(kind) => if kind == IsDir then Ignore else NoAction
  }

  /** The ids of the views on screen after an action is carried out. */
  function Apply(live: set<string>, a: Action): (r: set<string>)
    requires !a.Crash?
    ensures a.DeleteView? ==> a.id !in r && r + {a.id} == live + {a.id}
    ensures a.CreateView? ==> a.win.id in r && r - {a.win.id} == live - {a.win.id}
    ensures !a.DeleteView? && !a.CreateView? ==> r == live
  {
    match a
    case DeleteView(id) => live - {id}
    case CreateView(win) => live + {win.id}
    case _ => live
  }

  /** The views on screen match the window directories under "fs": a name
      without '/' has a view exactly when "fs/<name>" is a directory. Names
      ending in '~' are left out on purpose: the root watcher stats such a
      path without its '~' but keeps the '~' in the id, so for them the
      views need not match the directories (`TildeEventActsOnTildeId`,
      `TildeDirectoryDeleted`). */
  ghost predicate InSync(live: set<string>, tree: Tree)
  {
    forall name :: '/' !in name && name != [] && name[|name| - 1] != '~' ==>
      (name in live <==> ("fs/" + name) in tree && tree["fs/" + name] == Dir)
  }

  /** An event on "fs/<name>" acts on the view `name` and on no other. */
  lemma RootEventActsOnName(tree: Tree, pwd: string, mainPwd: string, name: string, op: Op)
    requires '/' !in name && name != [] && name[|name| - 1] != '~'
    requires ("fs/" + name) in tree ==> tree["fs/" + name] != Unreadable
    ensures var a := RootEventAction(tree, pwd, mainPwd, Event("fs/" + name, op));
      && !a.Crash?
      && (a.DeleteView? ==> a.id == name)
      && (a.CreateView? ==> a.win.id == name)
      && (("fs/" + name) !in tree ==> a == DeleteView(name))
      && (("fs/" + name) in tree && tree["fs/" + name] == Dir && op == {Create} ==> a.CreateView?)
      && (("fs/" + name) in tree && tree["fs/" + name].File? ==> a == Ignore)
  {
    var p := "fs/" + name;
    assert p[|p| - 1] == name[|name| - 1];
    StripTildeKeeps(p);
    SecondSegmentOfWindowPath(name, "");
  }

  /** The root watcher keeps the views in step with the directories when
      each event reports the change just made: a directory created under
      "fs" with a Create event, or one removed with a Remove event. */
  lemma RootEventKeepsSync(live: set<string>, tree: Tree, tree': Tree,
                           pwd: string, mainPwd: string, name: string, op: Op)
    requires '/' !in name && name != [] && name[|name| - 1] != '~'
    requires InSync(live, tree)
    requires (op == {Create} && tree' == tree["fs/" + name := Dir])
          || (op == {Remove} && tree' == tree - {"fs/" + name})
    ensures var a := RootEventAction(tree', pwd, mainPwd, Event("fs/" + name, op));
      !a.Crash? && InSync(Apply(live, a), tree')
  {
    var a := RootEventAction(tree', pwd, mainPwd, Event("fs/" + name, op));
    RootEventActsOnName(tree', pwd, mainPwd, name, op);
    var live' := Apply(live, a);
    forall n | '/' !in n && n != [] && n[|n| - 1] != '~'
      ensures n in live' <==> ("fs/" + n) in tree' && tree'["fs/" + n] == Dir
    {
      if n != name {
        assert "fs/" + n != "fs/" + name by {
          assert ("fs/" + n)[3..] == n && ("fs/" + name)[3..] == name;
        }
      }
    }
  }

  /** The root watcher stats the path less its '~' but takes the id from
      the path as given: an event for "fs/<name>~" is judged by what is at
      "fs/<name>" yet acts on the view "<name>~". */
  lemma TildeEventActsOnTildeId(tree: Tree, pwd: string, mainPwd: string, name: string, op: Op)
    requires '/' !in name
    requires ("fs/" + name) in tree && tree["fs/" + name] == Dir && op == {Create}
    ensures RootEventAction(tree, pwd, mainPwd, Event("fs/" + name + "~", op)).CreateView?
    ensures RootEventAction(tree, pwd, mainPwd, Event("fs/" + name + "~", op)).win.id == name + "~"
  {
    StripTildeInverse("fs/" + name);
    assert '/' !in name + "~";
    SecondSegmentOfWindowPath(name + "~", "");
    assert "fs/" + (name + "~") == "fs/" + name + "~";
  }

  /** A window directory whose name ends in '~' is stat'ed without that
      '~': while "fs/<base>" does not exist, every event for "fs/<base>~"
      deletes the view "<base>~", whatever the operation, even when
      "fs/<base>~" is a directory. */
  lemma TildeDirectoryDeleted(tree: Tree, pwd: string, mainPwd: string, base: string, op: Op)
    requires '/' !in base
    requires ("fs/" + base) !in tree
    ensures RootEventAction(tree, pwd, mainPwd, Event("fs/" + base + "~", op)) == DeleteView(base + "~")
  {
    StripTildeInverse("fs/" + base);
    assert '/' !in base + "~";
    SecondSegmentOfWindowPath(base + "~", "");
    assert "fs/" + (base + "~") == "fs/" + base + "~";
  }

  /** A Create event for a directory "fs/b~" with no "fs/b" beside it
      deletes the view "b~". */
  lemma TildeCreateDeletes(pwd: string, mainPwd: string)
    ensures RootEventAction(map["fs/b~" := Dir], pwd, mainPwd, Event("fs/b~", {Create})) == DeleteView("b~")
  {
    var tree: Tree := map["fs/b~" := Dir];
    assert |"fs/" + "b"| != |"fs/b~"|;
    assert ("fs/" + "b") !in tree;
    TildeDirectoryDeleted(tree, pwd, mainPwd, "b", {Create});
    assert "fs/" + "b" + "~" == "fs/b~";
  }

  /** The start-up scan and the root watcher disagree on a directory named
      "b~": the scan lists the window "b~", while a Create event for that
      same directory deletes the view "b~". */
  lemma TildeWindowScannedThenDeleted(pwd: string, mainPwd: string)
    ensures Scan.IdsAfter([Scan.Visit(Scan.Root, true), Scan.Visit("fs/b~", true)]) == Ok(["b~"])
    ensures RootEventAction(map["fs/b~" := Dir], pwd, mainPwd, Event("fs/b~", {Create})) == DeleteView("b~")
  {
    Scan.FirstLevelScan("b~");
    assert "fs/" + "b~" == "fs/b~";
    TildeCreateDeletes(pwd, mainPwd);
  }
}
