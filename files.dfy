/** Option and Result, for the reads that may fail. */
module Results {
  datatype Option<T> = None | Some(value: T)

  datatype Result<T> = Ok(value: T) | Err(error: string)
}

/** The window directory tree as the program sees it through `os.Stat` and
    `os.ReadFile`, and the rules that turn what it finds into a window's
    tag and content. */
module Files {
  import opened Results
  import opened Text

  /** What is at a path: a file, a directory, or something `os.Stat` fails
      on with an error other than "does not exist". A file's `data` is its
      bytes when `os.ReadFile` can read it, and `None` when it can be
      stat'ed but not read (no read permission, say). */
  datatype Node = File(data: Option<string>) | Dir | Unreadable

  /** The file tree, keyed by path exactly as the program spells it;
      a path that is not a key does not exist. */
  type Tree = map<string, Node>

  /** A successful `statPath`: nothing there (`nil, nil`), or the kind found. */
  datatype Kind = Missing | IsFile | IsDir

  /** `statPath`'s handling of editor backups: one trailing '~' goes. The
      result is `p` or `p` less its last character, and it is shorter
      exactly when `p` ends in '~'. */
  function StripTilde(p: string): (r: string)
    ensures |p| - 1 <= |r| <= |p| && r == p[..|r|]
    ensures |r| < |p| <==> p != [] && p[|p| - 1] == '~'
  {
    if p != [] && p[|p| - 1] == '~' then p[..|p| - 1] else p
  }

  /** Appending a '~' is undone, and only one '~' is stripped. */
  lemma StripTildeInverse(p: string)
    ensures StripTilde(p + "~") == p
    ensures StripTilde(p + "~~") == p + "~"
  {
  }

  /** A path not ending in '~' is stat'ed as it is. */
  lemma StripTildeKeeps(p: string)
    requires p == [] || p[|p| - 1] != '~'
    ensures StripTilde(p) == p
  {
  }

  /** `statPath`: stat the path less one trailing '~'; "does not exist" is
      success with nothing found, any other failure is an error. */
  function StatPath(tree: Tree, p: string): (r: Result<Kind>)
    ensures r.Err? <==> StripTilde(p) in tree && tree[StripTilde(p)] == Unreadable
    ensures r == Ok(Missing) <==> StripTilde(p) !in tree
    ensures r == Ok(IsFile) <==> StripTilde(p) in tree && tree[StripTilde(p)].File?
    ensures r == Ok(IsDir) <==> StripTilde(p) in tree && tree[StripTilde(p)] == Dir
  {
    var q := StripTilde(p);
    if q !in tree then Ok(Missing)
    else match tree[q]
      case File(_) => Ok(IsFile)
      case Dir => Ok(IsDir)
      case Unreadable => Err("stat " + q)
  }

  /** `os.ReadFile`: the bytes of a readable file; reading a directory, a
      missing path, a file without read access or a path that cannot be
      stat'ed fails. */
  function ReadFile(tree: Tree, p: string): (r: Option<string>)
    ensures r.Some? <==> p in tree && tree[p].File? && tree[p].data.Some?
    ensures r.Some? ==> r.value == tree[p].data.value
  {
    if p in tree && tree[p].File? then tree[p].data else None
  }

  /** The tag every fallback tag ends with. */
  const TagSuffix: string := "New Del Look"

  /** The package-level `pwd`. `main` declares a local `pwd` with `:=`
      instead of assigning this one, so it keeps Go's zero value. */
  const GlobalPwd: string := ""

  /** `makeDefaultWindowTag`, with the package-level `pwd` as `pwd` and the
      argument as `localPwd`. The result always ends with the suffix, and
      is just the suffix exactly when the two agree or `pwd` is empty. */
  function MakeDefaultWindowTag(pwd: string, localPwd: string): (r: string)
    ensures |r| >= |TagSuffix| && r[|r| - |TagSuffix|..] == TagSuffix
    ensures r == TagSuffix <==> pwd == localPwd || pwd == ""
    ensures r != TagSuffix ==> r == pwd + TagSuffix
  {
    if pwd == localPwd then TagSuffix else pwd + TagSuffix
  }

  /** `readWindowContent`: the `content` file of the window, or "" when it
      cannot be read. */
  function ReadWindowContent(tree: Tree, id: string): (r: string)
    ensures ReadFile(tree, "fs/" + id + "/content").Some? ==> r == ReadFile(tree, "fs/" + id + "/content").value
    ensures ReadFile(tree, "fs/" + id + "/content").None? ==> r == ""
  {
    match ReadFile(tree, "fs/" + id + "/content")
    case Some(data) => data
    case None => ""
  }

  /** `readWindowTag`: the `tag` file trimmed of surrounding spaces, or the
      default tag computed from the package-level `pwd` compared with
      itself. */
  function ReadWindowTag(tree: Tree, pwd: string, id: string): (r: string)
    ensures ReadFile(tree, "fs/" + id + "/tag").None? ==> r == TagSuffix
    ensures ReadFile(tree, "fs/" + id + "/tag").Some? ==> Trim(r) == r
  {
    match ReadFile(tree, "fs/" + id + "/tag")
    case Some(data) => TrimIdempotent(data); Trim(data)
    case None => MakeDefaultWindowTag(pwd, pwd)
  }

  /** Whatever `pwd` holds, a window without a readable tag file gets
      exactly the suffix as its tag; as the program runs (`pwd` empty) the
      same holds. */
  lemma FallbackTagIsSuffix(tree: Tree, pwd: string, id: string)
    requires ReadFile(tree, "fs/" + id + "/tag").None?
    ensures ReadWindowTag(tree, pwd, id) == "New Del Look"
    ensures ReadWindowTag(tree, GlobalPwd, id) == "New Del Look"
  {
  }

  /** A tag read from its file is the file's text less the spaces around
      it: it neither starts nor ends with a space, and reading a file that
      holds an already trimmed tag gives that tag back. */
  lemma FileTagTrimmed(tree: Tree, pwd: string, id: string)
    requires ReadFile(tree, "fs/" + id + "/tag").Some?
    ensures var data := tree["fs/" + id + "/tag"].data.value;
      var tag := ReadWindowTag(tree, pwd, id);
      (tag == [] || (tag[0] != ' ' && tag[|tag| - 1] != ' '))
      && (exists i, j :: 0 <= i <= j <= |data| && tag == data[i..j]
            && AllSpaces(data[..i]) && AllSpaces(data[j..]))
      && Trim(tag) == tag
  {
    var data := tree["fs/" + id + "/tag"].data.value;
    var i, j := TrimSpec(data);
    TrimIdempotent(data);
  }
}
