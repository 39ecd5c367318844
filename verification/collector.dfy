/** `getFiles`: the synchronous depth-first walk that gathers the paths to obfuscate.
    The file system is an abstract tree: what `statSync` reports for a path and, for a
    directory, the names `readdirSync` lists, in the order it lists them. */
module Collector {
  import opened Text
  import opened Options
  import opened Exclusion

  /** What a path is. `Unreadable` covers every path on which `statSync` or `readdirSync`
      throws: a missing path, a dangling link, or anything that is neither a regular file
      nor a directory (the walk treats it as a directory and listing it fails). */
  datatype Entry = File | Directory(listing: seq<Child>) | Unreadable

  /** One name of a directory listing and what it refers to. */
  datatype Child = Child(name: string, entry: Entry)

  /** `normalize(join(dir, name))` for a normalised `dir` and a plain entry name. */
  function ChildPath(dir: string, name: string): string
  {
    dir + "/" + name
  }

  /** The walk reaches no path on which the file system calls throw. */
  predicate Readable(e: Entry)
  {
    match e
    case File => true
    case Unreadable => false
    case Directory(listing) => forall c | c in listing :: Readable(c.entry)
  }

  /** A path the walk keeps: it ends in ".js" and no rule excludes it. */
  predicate Qualifies(path: string, rules: seq<Rule>, m: Matchers)
  {
    EndsWith(path, ScriptSuffix) && !IsExcluded(path, rules, m)
  }

  /** The paths `getFiles(path)` appends, in the order it appends them. A directory's
      listing is taken apart from its last entry, the way the walk's loop builds it up. */
  function Collected(path: string, e: Entry, rules: seq<Rule>, m: Matchers): seq<string>
    decreases e, 1
  {
    match e
    case File => if Qualifies(path, rules, m) then [path] else []
    case Directory(listing) => CollectedList(path, listing, rules, m)
    case Unreadable => []
  }

  function CollectedList(dir: string, listing: seq<Child>, rules: seq<Rule>, m: Matchers): seq<string>
    decreases listing, 0
  {
    if listing == [] then
      []
    else
      var last := listing[|listing| - 1];
      CollectedList(dir, listing[..|listing| - 1], rules, m)
        + Collected(ChildPath(dir, last.name), last.entry, rules, m)
  }

  /** Reference listing: every regular file of the tree, in depth-first pre-order
      following each directory's listing order, with no filtering. */
  function Files(path: string, e: Entry): seq<string>
    decreases e, 1
  {
    match e
    case File => [path]
    case Directory(listing) => FilesList(path, listing)
    case Unreadable => []
  }

  function FilesList(dir: string, listing: seq<Child>): seq<string>
    decreases listing, 0
  {
    if listing == [] then
      []
    else
      Files(ChildPath(dir, listing[0].name), listing[0].entry) + FilesList(dir, listing[1..])
  }

  /** Reference membership: the tree rooted at `path` has a regular file at `p`. */
  predicate FileAt(path: string, e: Entry, p: string)
    decreases e
  {
    match e
    case File => p == path
    case Unreadable => false
    case Directory(listing) =>
      exists c | c in listing :: FileAt(ChildPath(path, c.name), c.entry, p)
  }

  /** The qualifying paths of `ps`, in their order. */
  function Filter(ps: seq<string>, rules: seq<Rule>, m: Matchers): seq<string>
  {
    if ps == [] then []
    else (if Qualifies(ps[0], rules, m) then [ps[0]] else []) + Filter(ps[1..], rules, m)
  }

  lemma {:induction false} FilterAppend(a: seq<string>, b: seq<string>, rules: seq<Rule>, m: Matchers)
    ensures Filter(a + b, rules, m) == Filter(a, rules, m) + Filter(b, rules, m)
  {
    if a != [] {
      assert (a + b)[1..] == a[1..] + b;
      FilterAppend(a[1..], b, rules, m);
    } else {
      assert a + b == b;
    }
  }

  lemma {:induction false} FilterMembers(ps: seq<string>, rules: seq<Rule>, m: Matchers, p: string)
    ensures p in Filter(ps, rules, m) <==> p in ps && Qualifies(p, rules, m)
  {
    if ps != [] {
      FilterMembers(ps[1..], rules, m, p);
      assert ps == [ps[0]] + ps[1..];
    }
  }

  /** The walk's output is exactly the qualifying subsequence of the full pre-order
      listing: same paths, same order. */
  lemma {:induction false} CollectedIsFilteredFiles(path: string, e: Entry, rules: seq<Rule>, m: Matchers)
    ensures Collected(path, e, rules, m) == Filter(Files(path, e), rules, m)
    decreases e, 1
  {
    match e
    case File =>
      assert Files(path, e)[1..] == [];
    case Directory(listing) =>
      CollectedListIsFilteredFiles(path, listing, rules, m);
    case Unreadable =>
  }

  lemma {:induction false} CollectedListIsFilteredFiles(dir: string, listing: seq<Child>, rules: seq<Rule>, m: Matchers)
    ensures CollectedList(dir, listing, rules, m) == Filter(FilesList(dir, listing), rules, m)
    decreases listing, 0
  {
    if listing != [] {
      var init, last := listing[..|listing| - 1], listing[|listing| - 1];
      var lastPath := ChildPath(dir, last.name);
      CollectedListIsFilteredFiles(dir, init, rules, m);
      CollectedIsFilteredFiles(lastPath, last.entry, rules, m);
      FilesListSnoc(dir, listing);
      FilterAppend(FilesList(dir, init), Files(lastPath, last.entry), rules, m);
    }
  }

  /** The full listing of a directory is the listing of all but its last entry followed
      by the files under the last entry. */
  lemma {:induction false} FilesListSnoc(dir: string, listing: seq<Child>)
    requires listing != []
    ensures FilesList(dir, listing)
            == FilesList(dir, listing[..|listing| - 1])
               + Files(ChildPath(dir, listing[|listing| - 1].name), listing[|listing| - 1].entry)
  {
    if |listing| > 1 {
      FilesListSnoc(dir, listing[1..]);
      assert listing[1..][..|listing[1..]| - 1] == listing[..|listing| - 1][1..];
    }
  }

  /** The pre-order listing holds exactly the regular files of the tree. */
  lemma {:induction false} FilesAreFileAt(path: string, e: Entry, p: string)
    ensures p in Files(path, e) <==> FileAt(path, e, p)
    decreases e, 1
  {
    match e
    case File =>
    case Directory(listing) =>
      FilesListAreFileAt(path, listing, p);
    case Unreadable =>
  }

  lemma {:induction false} FilesListAreFileAt(dir: string, listing: seq<Child>, p: string)
    ensures p in FilesList(dir, listing)
            <==> exists c | c in listing :: FileAt(ChildPath(dir, c.name), c.entry, p)
    decreases listing, 0
  {
    if listing != [] {
      FilesAreFileAt(ChildPath(dir, listing[0].name), listing[0].entry, p);
      FilesListAreFileAt(dir, listing[1..], p);
      assert forall c :: c in listing <==> c == listing[0] || c in listing[1..];
    }
  }

  /** What the walk collects: a path is collected exactly when the tree has a regular file
      there, the path ends in ".js" and no rule excludes it. In particular a file without
      the ".js" suffix is never collected, whatever the rules are. */
  lemma CollectedMembers(path: string, e: Entry, rules: seq<Rule>, m: Matchers, p: string)
    ensures p in Collected(path, e, rules, m)
            <==> FileAt(path, e, p) && EndsWith(p, ScriptSuffix) && !IsExcluded(p, rules, m)
  {
    CollectedIsFilteredFiles(path, e, rules, m);
    FilterMembers(Files(path, e), rules, m, p);
    FilesAreFileAt(path, e, p);
  }

  /** A directory "a" holding "b.js" and "c.js": the string rule "b.js" keeps only
      "a/c.js" (provided the glob library does not match "b.js" against "a/c.js"), and a
      stylesheet beside them is never collected. */
  lemma StringRuleExample(m: Matchers)
    requires !m.glob("a/c.js", "b.js")
    ensures Collected("a", Directory([Child("b.js", File), Child("c.js", File), Child("style.css", File)]),
                      [Literal("b.js")], m)
            == ["a/c.js"]
  {
    var rules := [Literal("b.js")];
    var listing := [Child("b.js", File), Child("c.js", File), Child("style.css", File)];
    assert ChildPath("a", "b.js") == "a/b.js";
    assert ChildPath("a", "c.js") == "a/c.js";
    assert ChildPath("a", "style.css") == "a/style.css";
    assert Collected("a/b.js", File, rules, m) == [] by {
      assert OccursAt("a/b.js", "b.js", 2);
      assert RuleMatches("a/b.js", rules[0], m);
    }
    assert Collected("a/c.js", File, rules, m) == ["a/c.js"] by {
      assert !Includes("a/c.js", "b.js") by {
        assert !Includes(".js", "b.js");
        assert "c.js"[1..] == ".js" && "c.js"[..4][0] != 'b';
        assert !Includes("c.js", "b.js");
        assert "/c.js"[1..] == "c.js" && "/c.js"[..4][0] != 'b';
        assert !Includes("/c.js", "b.js");
        assert "a/c.js"[1..] == "/c.js" && "a/c.js"[..4][0] != 'b';
      }
      assert !RuleMatches("a/c.js", rules[0], m);
      assert EndsWith("a/c.js", ScriptSuffix);
    }
    assert Collected("a/style.css", File, rules, m) == [] by {
      assert !EndsWith("a/style.css", ScriptSuffix);
    }
    assert listing[..1][..0] == [];
    assert listing[..2][..1] == listing[..1];
    assert listing[..3][..2] == listing[..2];
    assert CollectedList("a", listing[..1], rules, m) == [];
    assert CollectedList("a", listing[..2], rules, m) == ["a/c.js"];
    assert listing[..3] == listing;
  }

  /** The state `getFiles` works on: the `files` array it appends to, and the rules and
      matchers it consults. */
  class FileCollector {
    const rules: seq<Rule>
    const matchers: Matchers
    var files: seq<string>

    constructor (rules: seq<Rule>, matchers: Matchers)
      ensures this.rules == rules && this.matchers == matchers && files == []
    {
      this.rules := rules;
      this.matchers := matchers;
      files := [];
    }

    /** `getFiles(path)`. `ok` is false when a file system call threw; the exception then
        leaves the walk (and the whole hook) at once, so what was appended by then is
        never used. */
    method GetFiles(path: string, e: Entry) returns (ok: bool)
      modifies this
      ensures ok == Readable(e)
      ensures ok ==> files == old(files) + Collected(path, e, rules, matchers)
      ensures old(files) <= files
      decreases e
    {
      match e {
        case Unreadable =>
          ok := false;
        case File =>
          if EndsWith(path, ScriptSuffix) {
            var isExcluded := IsExcluded(path, rules, matchers);
            if !isExcluded {
              files := files + [path];
            }
          }
          ok := true;
        case Directory(listing) =>
          var i := 0;
          while i < |listing|
            invariant 0 <= i <= |listing|
            invariant forall j :: 0 <= j < i ==> Readable(listing[j].entry)
            invariant files == old(files) + CollectedList(path, listing[..i], rules, matchers)
          {
            var child := listing[i];
            assert listing[..i + 1][..i] == listing[..i];
            var childOk := GetFiles(ChildPath(path, child.name), child.entry);
            if !childOk {
              assert child in listing;
              return false;
            }
            i := i + 1;
          }
          assert listing[..i] == listing;
          ok := true;
      }
    }
  }
}
