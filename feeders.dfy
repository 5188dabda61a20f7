/**
 * The suggestion engine: data sources that answer `query(text, position,
 * items_count)` with an ordered page of completions. Two sources exist: a
 * list of displayable items filtered by case-folded substring, and the
 * filesystem, which turns the typed text into a glob pattern and lists the
 * matching entries. The filesystem and the glob matcher are parameters: a
 * `Glob` maps a pattern and its match options to a pattern error or to the
 * sequence of entries the glob iterator yields.
 */
module Feeders {
  import opened Wrappers
  import opened Strings

  // ---------------------------------------------------------------------------
  // Pagination: `.skip(position).take(items_count)`
  // ---------------------------------------------------------------------------

  function Min(a: int, b: int): int {
    if a <= b then a else b
  }

  /** `Iterator::skip`: drop the first `n` items, one at a time. */
  function Skip<T>(s: seq<T>, n: nat): (r: seq<T>)
    ensures r == if n <= |s| then s[n..] else []
  {
    if n == 0 || s == [] then s else Skip(s[1..], n - 1)
  }

  /** `Iterator::take`: keep at most the first `n` items. */
  function Take<T>(s: seq<T>, n: nat): (r: seq<T>)
    ensures r == s[..Min(n, |s|)]
  {
    if n == 0 || s == [] then [] else [s[0]] + Take(s[1..], n - 1)
  }

  /** The page `skip(position).take(itemsCount)` of the full result list. */
  function Paginate<T>(s: seq<T>, position: nat, itemsCount: nat): (r: seq<T>)
    ensures |r| <= itemsCount
    ensures r == s[Min(position, |s|)..Min(position + itemsCount, |s|)]
    ensures forall k :: 0 <= k < |r| ==> r[k] == s[position + k]
  {
    Take(Skip(s, position), itemsCount)
  }

  /** Two consecutive pages cover one larger page: no gaps, no duplicates. */
  lemma PagesConcatenate<T>(s: seq<T>, position: nat, a: nat, b: nat)
    ensures Paginate(s, position, a) + Paginate(s, position + a, b) == Paginate(s, position, a + b)
  {
  }

  function MapSeq<T, U>(s: seq<T>, f: T -> U): (r: seq<U>)
    ensures |r| == |s| && forall k :: 0 <= k < |s| ==> r[k] == f(s[k])
  {
    seq(|s|, k requires 0 <= k < |s| => f(s[k]))
  }

  // ---------------------------------------------------------------------------
  // `add_glob`: add a star to the last component of a path
  // ---------------------------------------------------------------------------

  /** The index just past the last '/' of `p`, or 0 when `p` has none. */
  function SplitPoint(p: string): (k: nat)
    ensures k <= |p|
    ensures forall i :: k <= i < |p| ==> p[i] != '/'
    ensures k > 0 ==> p[k - 1] == '/'
  {
    if p == [] then 0
    else if p[|p| - 1] == '/' then |p|
    else SplitPoint(p[..|p| - 1])
  }

  /** Everything up to and including the last '/'. */
  function DirPart(p: string): string {
    p[..SplitPoint(p)]
  }

  /** The text after the last '/' (empty when `p` ends in '/'). */
  function LastComponent(p: string): string {
    p[SplitPoint(p)..]
  }

  /** A split point is determined by where the last '/' is. */
  lemma SplitJoin(d: string, x: string)
    requires d == [] || d[|d| - 1] == '/'
    requires '/' !in x
    ensures SplitPoint(d + x) == |d|
    ensures DirPart(d + x) == d && LastComponent(d + x) == x
  {
    var p := d + x;
    assert forall i :: |d| <= i < |p| ==> p[i] == x[i - |d|];
    assert |d| > 0 ==> p[|d| - 1] == '/';
  }

  /** Facts about the split of any path at its last '/'. */
  lemma SplitFacts(p: string)
    ensures p == DirPart(p) + LastComponent(p)
    ensures '/' !in LastComponent(p)
    ensures DirPart(p) == [] || DirPart(p)[|DirPart(p)| - 1] == '/'
    ensures EndsWithSlash(p) ==> DirPart(p) == p && LastComponent(p) == []
    ensures p != [] && !EndsWithSlash(p) ==> LastComponent(p) != []
  {
    var k := SplitPoint(p);
    assert forall i :: 0 <= i < |p| - k ==> LastComponent(p)[i] == p[k + i];
  }

  /** `str::ends_with("/")`. */
  predicate EndsWithSlash(p: string) {
    |p| > 0 && p[|p| - 1] == '/'
  }

  /**
   * The directory part ends where Rust's `Path::parent` would end it: it is
   * empty, the root, or its last segment is neither empty nor a "." that
   * follows a '/' (`parent` trims trailing empty and "." segments; a leading
   * "." or any ".." is kept).
   */
  predicate JunctionPlain(dir: string) {
    || dir == []
    || dir == "/"
    || (&& |dir| >= 2
        && dir[|dir| - 2] != '/'
        && !(|dir| >= 3 && dir[|dir| - 3] == '/' && dir[|dir| - 2] == '.'))
  }

  /**
   * The paths on which splitting at the last '/' agrees with Rust's
   * `Path::components` and `Path::with_file_name`: a path ending in '/'
   * (handled before any path parsing), a path whose last component already
   * holds a '*' (returned verbatim), or a path whose last component is not
   * "." or ".." and whose directory part `JunctionPlain` accepts.
   */
  predicate PlainPath(p: string) {
    || EndsWithSlash(p)
    || '*' in LastComponent(p)
    || (&& LastComponent(p) != "."
        && LastComponent(p) != ".."
        && JunctionPlain(DirPart(p)))
  }

  /** The glob rule for a last component: empty becomes "*", starless `c` becomes `*c*`, starred stays. */
  function GlobComponent(last: string): (r: string)
    ensures '*' in r
    ensures '/' !in last ==> '/' !in r
  {
    if last == [] then "*"
    else if '*' !in last then "*" + last + "*"
    else last
  }

  /**
   * `add_glob`: a path ending in '/' gets "*" appended; a path with no
   * component becomes "*"; otherwise a last component without '*' is replaced
   * by `*component*` and a last component with '*' leaves the path unchanged.
   * Stated uniformly: the directory part is kept and the last component is
   * rewritten by `GlobComponent`.
   */
  function AddGlob(path: string): (r: string)
    requires PlainPath(path)
    ensures r == DirPart(path) + GlobComponent(LastComponent(path))
    ensures DirPart(r) == DirPart(path)
    ensures LastComponent(r) == GlobComponent(LastComponent(path))
  {
    SplitFacts(path);
    if EndsWithSlash(path) then
      SplitJoin(path, "*");
      path + "*"
    else if path == [] then
      "*"
    else if '*' !in LastComponent(path) then
      var last := LastComponent(path);
      SplitJoin(DirPart(path), "*" + last + "*");
      assert DirPart(path) + "*" + last + "*" == DirPart(path) + ("*" + last + "*");
      DirPart(path) + "*" + last + "*"
    else
      path
  }

  /** Every output has a '*' in its last component, so a second application changes nothing. */
  lemma AddGlobIdempotent(path: string)
    requires PlainPath(path)
    ensures PlainPath(AddGlob(path))
    ensures AddGlob(AddGlob(path)) == AddGlob(path)
  {
    var r := AddGlob(path);
    assert '*' in LastComponent(r);
  }

  /** A path ending in '/' gets a "*" component appended; the empty path becomes "*". */
  lemma AddGlobTrailingSlash(path: string)
    requires path == [] || EndsWithSlash(path)
    ensures PlainPath(path) && AddGlob(path) == path + "*"
  {
  }

  /** A starless last component `last` becomes `*last*`; the directory before it is kept. */
  lemma AddGlobWraps(dir: string, last: string)
    requires dir == [] || EndsWithSlash(dir)
    requires JunctionPlain(dir)
    requires last != [] && last != "." && last != ".."
    requires '/' !in last && '*' !in last
    ensures PlainPath(dir + last) && AddGlob(dir + last) == dir + "*" + last + "*"
  {
    SplitJoin(dir, last);
  }

  /** A last component that already holds a '*' leaves the path unchanged. */
  lemma AddGlobKeepsStarred(dir: string, last: string)
    requires dir == [] || EndsWithSlash(dir)
    requires '/' !in last && '*' in last
    ensures PlainPath(dir + last) && AddGlob(dir + last) == dir + last
  {
    SplitJoin(dir, last);
  }

  // The source's unit tests, one lemma each.

  lemma AddGlobTestEmpty()
    ensures AddGlob("") == "*"
  {
  }

  lemma AddGlobTestRoot()
    ensures AddGlob("/") == "/*"
  {
  }

  lemma AddGlobTestHome()
    ensures AddGlob("/home/") == "/home/*"
  {
  }

  lemma AddGlobTestWrap()
    ensures AddGlob("/home/user/xxx") == "/home/user/*xxx*"
  {
    AddGlobWraps("/home/user/", "xxx");
    assert "/home/user/" + "xxx" == "/home/user/xxx";
    assert "/home/user/" + "*" + "xxx" + "*" == "/home/user/*xxx*";
  }

  lemma AddGlobTestLeadingStar()
    ensures AddGlob("/home/user/*xxx") == "/home/user/*xxx"
  {
    AddGlobKeepsStarred("/home/user/", "*xxx");
    assert "/home/user/" + "*xxx" == "/home/user/*xxx";
  }

  lemma AddGlobTestTrailingStar()
    ensures AddGlob("/home/user/xxx*") == "/home/user/xxx*"
  {
    AddGlobKeepsStarred("/home/user/", "xxx*");
    assert "/home/user/" + "xxx*" == "/home/user/xxx*";
  }

  lemma AddGlobTestRecursiveWrap()
    ensures AddGlob("**/xxx") == "**/*xxx*"
  {
    AddGlobWraps("**/", "xxx");
    assert "**/" + "xxx" == "**/xxx";
    assert "**/" + "*" + "xxx" + "*" == "**/*xxx*";
  }

  lemma AddGlobTestRecursiveLeadingStar()
    ensures AddGlob("**/*xxx") == "**/*xxx"
  {
    AddGlobKeepsStarred("**/", "*xxx");
    assert "**/" + "*xxx" == "**/*xxx";
  }

  lemma AddGlobTestRecursiveTrailingStar()
    ensures AddGlob("**/xxx*") == "**/xxx*"
  {
    AddGlobKeepsStarred("**/", "xxx*");
    assert "**/" + "xxx*" == "**/xxx*";
  }

  // ---------------------------------------------------------------------------
  // `DirItems`: the filesystem-backed feeder
  // ---------------------------------------------------------------------------

  datatype DirItemType = Dir | All

  datatype DirItems = DirItems(dirItemType: DirItemType, useFullPaths: bool)

  /** `DirItems::new`: suggests files and directories, as typed (relative) paths. */
  function DirItemsNew(): (d: DirItems)
    ensures d.dirItemType == All && !d.useFullPaths
  {
    DirItems(All, false)
  }

  /** `DirItems::dirs`: suggests directories only, as typed (relative) paths. */
  function DirItemsDirs(): (d: DirItems)
    ensures d.dirItemType == Dir && !d.useFullPaths
  {
    DirItems(Dir, false)
  }

  /** `DirItems::use_full_paths`: switches to canonical paths, keeping the mode. */
  function DirItemsUseFullPaths(d: DirItems): (r: DirItems)
    ensures r.useFullPaths && r.dirItemType == d.dirItemType
  {
    d.(useFullPaths := true)
  }

  /** `glob::MatchOptions`. */
  datatype MatchOptions = MatchOptions(caseSensitive: bool, requireLiteralSeparator: bool, requireLiteralLeadingDot: bool)

  datatype Metadata = Metadata(isDir: bool)

  /**
   * One item of the glob iterator: an error (unreadable directory), or a
   * path together with what the filesystem answers for `metadata()` and
   * `fs::canonicalize` on it (None where that call fails).
   */
  datatype GlobEntry =
    | GlobError(reason: string)
    | Found(path: string, metadata: Option<Metadata>, canonical: Option<string>)

  datatype PatternError = PatternError(pos: nat, msg: string)

  /** `glob_with`: a pattern error, or the entries matching the pattern, in the matcher's order. */
  type Glob = (string, MatchOptions) -> Result<seq<GlobEntry>, PatternError>

  /** The typed text resolved to a path: "" is the current directory; once the text starts with '~', every '~' is replaced by the home directory. */
  function ResolvePath(text: string, home: Option<string>): (r: string)
    requires StartsWith(text, "~") ==> home.Some?
    ensures text == [] ==> r == "./"
    ensures text != [] && text[0] != '~' ==> r == text
    ensures text != [] && text[0] == '~' ==>
              r == home.value + Replace(text[1..], '~', home.value) && ('~' !in home.value ==> '~' !in r)
  {
    if text == [] then
      "./"
    else if StartsWith(text, "~") then
      assert text == [text[0]] + text[1..];
      ReplaceAppend([text[0]], text[1..], '~', home.value);
      Replace(text, '~', home.value)
    else
      text
  }

  /** The pattern handed to the glob matcher. */
  function SearchPattern(text: string, home: Option<string>): (r: string)
    requires StartsWith(text, "~") ==> home.Some?
    requires PlainPath(ResolvePath(text, home))
    ensures '*' in LastComponent(r)
    ensures DirPart(r) == DirPart(ResolvePath(text, home))
  {
    AddGlob(ResolvePath(text, home))
  }

  /** Matching is case-sensitive exactly when the typed text (not the resolved path) has an upper-case letter. */
  function SearchOptions(text: string): (o: MatchOptions)
    ensures o.caseSensitive <==> exists i :: 0 <= i < |text| && IsUpper(text[i])
    ensures !o.requireLiteralSeparator && o.requireLiteralLeadingDot
  {
    MatchOptions(AnyUpper(text), false, true)
  }

  /** The entry passes both filters: no iterator error, and (directories only) a directory. */
  predicate Keeps(d: DirItems, e: GlobEntry) {
    && e.Found?
    && e.metadata.Some?
    && (d.dirItemType == Dir ==> e.metadata.value.isDir)
  }

  /** The entries that pass both filters, in iterator order. */
  function Kept(d: DirItems, entries: seq<GlobEntry>): (r: seq<GlobEntry>)
    ensures forall k :: 0 <= k < |r| ==> Keeps(d, r[k]) && r[k] in entries
  {
    if entries == [] then []
    else if Keeps(d, entries[0]) then [entries[0]] + Kept(d, entries[1..])
    else Kept(d, entries[1..])
  }

  /** An entry is kept exactly when it is in the input and passes both filters. */
  lemma {:induction false} KeptMembers(d: DirItems, entries: seq<GlobEntry>, e: GlobEntry)
    ensures e in Kept(d, entries) <==> e in entries && Keeps(d, e)
  {
    if entries != [] {
      KeptMembers(d, entries[1..], e);
      assert entries == [entries[0]] + entries[1..];
    }
  }

  /** The filter never adds entries: each passing entry is kept at most once per occurrence. */
  lemma {:induction false} KeptLength(d: DirItems, entries: seq<GlobEntry>)
    ensures |Kept(d, entries)| <= |entries|
  {
    if entries != [] {
      KeptLength(d, entries[1..]);
    }
  }

  /** Filtering a concatenation filters each part, so the matcher's order is kept. */
  lemma {:induction false} KeptAppend(d: DirItems, a: seq<GlobEntry>, b: seq<GlobEntry>)
    ensures Kept(d, a + b) == Kept(d, a) + Kept(d, b)
  {
    if a == [] {
      assert a + b == b;
    } else {
      assert (a + b)[0] == a[0];
      assert (a + b)[1..] == a[1..] + b;
      KeptAppend(d, a[1..], b);
    }
  }

  /**
   * The lazy chain `filter.filter.map.skip.take` reads `metadata()` of every
   * found entry it pulls and, with full paths, canonicalizes every entry that
   * passes; it stops pulling once `need` entries have passed. `unwrap` panics
   * on a failed call, so those calls must succeed.
   */
  predicate Readable(d: DirItems, entries: seq<GlobEntry>, need: nat)
    decreases |entries|
  {
    if need == 0 || entries == [] then true
    else match entries[0]
      case GlobError(_) => Readable(d, entries[1..], need)
      case Found(_, meta, canonical) =>
        && meta.Some?
        && if Keeps(d, entries[0]) then
             (d.useFullPaths ==> canonical.Some?) && Readable(d, entries[1..], need - 1)
           else
             Readable(d, entries[1..], need)
  }

  /** How many passing entries the chain pulls: none when nothing is taken. */
  function Demand(position: nat, itemsCount: nat): nat {
    if itemsCount == 0 then 0 else position + itemsCount
  }

  /** Every entry among the first `need` kept ones can be rendered. */
  lemma {:induction false} ReadableRenders(d: DirItems, entries: seq<GlobEntry>, need: nat)
    requires Readable(d, entries, need)
    ensures forall k :: 0 <= k < Min(need, |Kept(d, entries)|) ==> d.useFullPaths ==> Kept(d, entries)[k].canonical.Some?
    decreases |entries|
  {
    if need == 0 || entries == [] {
    } else if Keeps(d, entries[0]) {
      ReadableRenders(d, entries[1..], need - 1);
      var rest := Kept(d, entries[1..]);
      assert Kept(d, entries) == [entries[0]] + rest;
      forall k | 1 <= k < Min(need, |Kept(d, entries)|)
        ensures d.useFullPaths ==> Kept(d, entries)[k].canonical.Some?
      {
        assert Kept(d, entries)[k] == rest[k - 1];
      }
    } else {
      ReadableRenders(d, entries[1..], need);
    }
  }

  /** The text shown for a kept entry: its canonical path, or the path as matched. */
  function Render(d: DirItems, e: GlobEntry): string
    requires e.Found?
    requires d.useFullPaths ==> e.canonical.Some?
  {
    if d.useFullPaths then e.canonical.value else e.path
  }

  /** The page of kept entries, each rendered. */
  function RenderAll(d: DirItems, page: seq<GlobEntry>): (r: seq<string>)
    requires forall k :: 0 <= k < |page| ==> page[k].Found? && (d.useFullPaths ==> page[k].canonical.Some?)
    ensures |r| == |page| && forall k :: 0 <= k < |page| ==> r[k] == Render(d, page[k])
  {
    seq(|page|, k requires 0 <= k < |page| => Render(d, page[k]))
  }

  /**
   * `<DirItems as Feeder>::query`: resolve the text, add the glob, run the
   * matcher; a pattern error gives no suggestions; otherwise drop iterator
   * errors, keep directories only in `dirs()` mode, and return the requested
   * page, each entry rendered (canonicalized under `use_full_paths`).
   */
  function DirQuery(d: DirItems, glob: Glob, home: Option<string>, text: string, position: nat, itemsCount: nat): (r: seq<string>)
    requires StartsWith(text, "~") ==> home.Some?
    requires PlainPath(ResolvePath(text, home))
    requires glob(SearchPattern(text, home), SearchOptions(text)).Success? ==>
               Readable(d, glob(SearchPattern(text, home), SearchOptions(text)).value, Demand(position, itemsCount))
    ensures glob(SearchPattern(text, home), SearchOptions(text)).Failure? ==> r == []
    ensures |r| <= itemsCount
    ensures glob(SearchPattern(text, home), SearchOptions(text)).Success? ==>
              forall k :: 0 <= k < |r| ==>
                exists e :: && e in glob(SearchPattern(text, home), SearchOptions(text)).value
                            && Keeps(d, e) && (d.useFullPaths ==> e.canonical.Some?)
                            && r[k] == Render(d, e)
  {
    match glob(SearchPattern(text, home), SearchOptions(text))
    case Failure(_) => []
    case Success(entries) =>
      var kept := Kept(d, entries);
      var page := Paginate(kept, position, itemsCount);
      ReadableRenders(d, entries, Demand(position, itemsCount));
      assert forall k :: 0 <= k < |page| ==> page[k] == kept[position + k];
      RenderAll(d, page)
  }

  /** `DirQuery` returns exactly the requested window of all the kept entries. */
  lemma DirQueryWindow(d: DirItems, glob: Glob, home: Option<string>, text: string, position: nat, itemsCount: nat)
    requires StartsWith(text, "~") ==> home.Some?
    requires PlainPath(ResolvePath(text, home))
    requires glob(SearchPattern(text, home), SearchOptions(text)).Success?
    requires Readable(d, glob(SearchPattern(text, home), SearchOptions(text)).value, Demand(position, itemsCount))
    ensures var kept := Kept(d, glob(SearchPattern(text, home), SearchOptions(text)).value);
            var r := DirQuery(d, glob, home, text, position, itemsCount);
            |r| == Min(position + itemsCount, |kept|) - Min(position, |kept|)
            && forall k :: 0 <= k < |r| ==>
                 && (d.useFullPaths ==> kept[position + k].canonical == Some(r[k]))
                 && (!d.useFullPaths ==> kept[position + k].path == r[k])
  {
    var entries := glob(SearchPattern(text, home), SearchOptions(text)).value;
    ReadableRenders(d, entries, Demand(position, itemsCount));
  }

  /** Rendering a whole list and then taking a page equals taking the page and rendering it. */
  lemma RenderThenPage(d: DirItems, kept: seq<GlobEntry>, position: nat, itemsCount: nat)
    requires forall k :: 0 <= k < |kept| ==> kept[k].Found? && (d.useFullPaths ==> kept[k].canonical.Some?)
    ensures Paginate(RenderAll(d, kept), position, itemsCount) == RenderAll(d, Paginate(kept, position, itemsCount))
  {
    var page := Paginate(kept, position, itemsCount);
    var lhs := Paginate(RenderAll(d, kept), position, itemsCount);
    var rhs := RenderAll(d, page);
    assert |lhs| == |rhs|;
    forall k | 0 <= k < |lhs|
      ensures lhs[k] == rhs[k]
    {
      assert page[k] == kept[position + k];
    }
  }

  /**
   * In the source's order: when every kept entry can be rendered, rendering
   * all of them and then taking the page gives the same suggestions.
   */
  lemma DirQueryRendersFirst(d: DirItems, glob: Glob, home: Option<string>, text: string, position: nat, itemsCount: nat)
    requires StartsWith(text, "~") ==> home.Some?
    requires PlainPath(ResolvePath(text, home))
    requires glob(SearchPattern(text, home), SearchOptions(text)).Success?
    requires Readable(d, glob(SearchPattern(text, home), SearchOptions(text)).value, Demand(position, itemsCount))
    requires var kept := Kept(d, glob(SearchPattern(text, home), SearchOptions(text)).value);
             forall k :: 0 <= k < |kept| ==> d.useFullPaths ==> kept[k].canonical.Some?
    ensures var kept := Kept(d, glob(SearchPattern(text, home), SearchOptions(text)).value);
            DirQuery(d, glob, home, text, position, itemsCount) == Paginate(RenderAll(d, kept), position, itemsCount)
  {
    var kept := Kept(d, glob(SearchPattern(text, home), SearchOptions(text)).value);
    forall k | 0 <= k < |kept|
      ensures kept[k].Found? && (d.useFullPaths ==> kept[k].canonical.Some?)
    {
      assert Keeps(d, kept[k]);
    }
    RenderThenPage(d, kept, position, itemsCount);
  }

  // ---------------------------------------------------------------------------
  // `Vec<T>`: the list-backed feeder
  // ---------------------------------------------------------------------------

  /** The display strings whose lower-case form contains `text`, in list order. */
  function Matching(shown: seq<string>, text: string): (r: seq<string>)
    ensures |r| <= |shown|
  {
    if shown == [] then []
    else if Contains(ToLower(shown[0]), text) then [shown[0]] + Matching(shown[1..], text)
    else Matching(shown[1..], text)
  }

  /** Filtering a concatenation filters each part, in order. */
  lemma {:induction false} MatchingAppend(a: seq<string>, b: seq<string>, text: string)
    ensures Matching(a + b, text) == Matching(a, text) + Matching(b, text)
  {
    if a == [] {
      assert a + b == b;
    } else {
      assert (a + b)[0] == a[0];
      assert (a + b)[1..] == a[1..] + b;
      MatchingAppend(a[1..], b, text);
    }
  }

  /** A string survives the filter exactly when it is listed and its lower-case form contains `text`. */
  lemma {:induction false} MatchingMembers(shown: seq<string>, text: string, s: string)
    ensures s in Matching(shown, text) <==> s in shown && Contains(ToLower(s), text)
  {
    if shown != [] {
      MatchingMembers(shown[1..], text, s);
      assert shown == [shown[0]] + shown[1..];
    }
  }

  /**
   * `<Vec<T> as Feeder>::query`: render each item, keep the strings whose
   * lower-case form contains `text` (the text itself is not lower-cased),
   * and return the requested page.
   */
  function VecQuery<T>(items: seq<T>, show: T -> string, text: string, position: nat, itemsCount: nat): (r: seq<string>)
    ensures |r| <= itemsCount
    ensures forall k :: 0 <= k < |r| ==> Contains(ToLower(r[k]), text) && r[k] in MapSeq(items, show)
  {
    var all := Matching(MapSeq(items, show), text);
    var page := Paginate(all, position, itemsCount);
    forall k | 0 <= k < |page|
      ensures Contains(ToLower(page[k]), text) && page[k] in MapSeq(items, show)
    {
      MatchingMembers(MapSeq(items, show), text, page[k]);
    }
    page
  }

  /** Since the text is not lower-cased, a text with an upper-case letter never matches a list item. */
  lemma VecQueryUpperFindsNothing<T>(items: seq<T>, show: T -> string, text: string, position: nat, itemsCount: nat)
    requires AnyUpper(text)
    ensures VecQuery(items, show, text, position, itemsCount) == []
  {
    var shown := MapSeq(items, show);
    var all := Matching(shown, text);
    if all != [] {
      MatchingMembers(shown, text, all[0]);
      LowerExcludesUpper(all[0], text);
    }
  }

  /** The list feeder returns exactly the requested window of all matching strings. */
  lemma VecQueryWindow<T>(items: seq<T>, show: T -> string, text: string, position: nat, itemsCount: nat)
    ensures var all := Matching(MapSeq(items, show), text);
            VecQuery(items, show, text, position, itemsCount) == all[Min(position, |all|)..Min(position + itemsCount, |all|)]
  {
  }
}
