/** Paths on the remote drive (`util.rs`): navigation, parents and base names. */
module RemotePath {
  import opened Prelude

  // ---- splitting at slashes ----------------------------------------------------------------

  /** `str::split('/')`: never empty. */
  function Split(s: string): (parts: seq<string>)
    ensures parts != []
  {
    if s == "" then [""]
    else Push(Split(s[..|s| - 1]), s[|s| - 1])
  }

  /** `join("/")`. */
  function Join(parts: seq<string>): string {
    if parts == [] then ""
    else if |parts| == 1 then parts[0]
    else Join(parts[..|parts| - 1]) + "/" + parts[|parts| - 1]
  }

  predicate NoSlash(s: string) {
    '/' !in s
  }

  /** The parts with one more character. */
  function Push(parts: seq<string>, c: char): (r: seq<string>)
    requires parts != []
    ensures r != []
  {
    if c == '/' then parts + [""]
    else parts[..|parts| - 1] + [parts[|parts| - 1] + [c]]
  }

  lemma PushConcat(a: seq<string>, b: seq<string>, c: char)
    requires b != []
    ensures Push(a + b, c) == a + Push(b, c)
  {
  }

  /** Split at a slash, the parts are those before it and those behind it. */
  lemma {:induction false} SplitConcat(s: string, a: string, b: string)
    requires s == a + "/" + b
    ensures Split(s) == Split(a) + Split(b)
    decreases |b|
  {
    var init, c := s[..|s| - 1], s[|s| - 1];
    assert Split(s) == Push(Split(init), c);
    if b == "" {
      assert init == a && c == '/';
    } else {
      var b' := b[..|b| - 1];
      assert Split(b) == Push(Split(b'), b[|b| - 1]);
      assert c == b[|b| - 1] && init == a + "/" + b';
      SplitConcat(init, a, b');
      PushConcat(Split(a), Split(b'), c);
    }
  }

  lemma {:induction false} SplitWhole(s: string)
    requires NoSlash(s)
    ensures Split(s) == [s]
  {
    if s != "" {
      var init, c := s[..|s| - 1], s[|s| - 1];
      assert s == init + [c];
      SplitWhole(init);
      assert [init][..0] == [];
    }
  }

  lemma {:induction false} SplitInvertsJoin(parts: seq<string>)
    requires parts != [] && forall p :: p in parts ==> NoSlash(p)
    ensures Split(Join(parts)) == parts
    decreases |parts|
  {
    var init, last := parts[..|parts| - 1], parts[|parts| - 1];
    assert parts == init + [last];
    SplitWhole(last);
    if |parts| > 1 {
      SplitInvertsJoin(init);
      SplitConcat(Join(parts), Join(init), last);
    } else {
      assert parts == [last];
    }
  }

  lemma {:induction false} PartsHaveNoSlash(s: string)
    ensures forall p :: p in Split(s) ==> NoSlash(p)
    decreases |s|
  {
    if s != "" {
      PartsHaveNoSlash(s[..|s| - 1]);
      var parts := Split(s[..|s| - 1]);
      assert parts[|parts| - 1] in parts;
    }
  }

  // ---- paths -------------------------------------------------------------------------------

  /** The segments of a path: its parts that are not empty. */
  function NonEmpty(parts: seq<string>): seq<string> {
    if parts == [] then []
    else NonEmpty(parts[..|parts| - 1]) + if parts[|parts| - 1] == "" then [] else [parts[|parts| - 1]]
  }

  function Render(segments: seq<string>): string {
    "/" + Join(segments)
  }

  predicate IsSegment(s: string) {
    s != "" && NoSlash(s)
  }

  predicate IsName(s: string) {
    IsSegment(s) && s != "." && s != ".."
  }

  /** Rendered from names: starts with a slash, has no doubled or trailing one, no `.` and no `..`. */
  ghost predicate Normalised(path: string) {
    exists names: seq<string> :: (forall n :: n in names ==> IsName(n)) && path == Render(names)
  }

  lemma {:induction false} NonEmptyConcat(a: seq<string>, b: seq<string>)
    ensures NonEmpty(a + b) == NonEmpty(a) + NonEmpty(b)
    decreases |b|
  {
    if b == [] {
      assert a + b == a;
    } else {
      var init := b[..|b| - 1];
      assert (a + b)[..|a + b| - 1] == a + init;
      NonEmptyConcat(a, init);
    }
  }

  lemma {:induction false} NonEmptyMembers(parts: seq<string>)
    ensures forall p :: p in NonEmpty(parts) <==> p in parts && p != ""
    decreases |parts|
  {
    if parts != [] {
      NonEmptyMembers(parts[..|parts| - 1]);
      assert parts == parts[..|parts| - 1] + [parts[|parts| - 1]];
    }
  }

  lemma {:induction false} NonEmptyAll(parts: seq<string>)
    requires forall p :: p in parts ==> p != ""
    ensures NonEmpty(parts) == parts
    decreases |parts|
  {
    if parts != [] {
      var init, last := parts[..|parts| - 1], parts[|parts| - 1];
      assert last in parts && forall p :: p in init ==> p in parts;
      NonEmptyAll(init);
      assert parts == init + [last];
    }
  }

  lemma SplitRender(segments: seq<string>)
    requires segments != [] && forall s :: s in segments ==> NoSlash(s)
    ensures Split(Render(segments)) == [""] + segments
  {
    SplitConcat(Render(segments), "", Join(segments));
    SplitInvertsJoin(segments);
  }

  lemma SplitRoot()
    ensures Render([]) == "/" && Split("/") == ["", ""]
  {
  }

  /** A rendered path has exactly the segments it was rendered from. */
  lemma SegmentsOfRender(segments: seq<string>)
    requires forall s :: s in segments ==> IsSegment(s)
    ensures NonEmpty(Split(Render(segments))) == segments
  {
    if segments == [] {
      SplitRoot();
      assert ["", ""][..1] == [""] && [""][..0] == [];
      assert NonEmpty([""]) == NonEmpty([]);
    } else {
      SplitRender(segments);
      NonEmptyConcat([""], segments);
      NonEmptyAll(segments);
      assert NonEmpty([""]) == [] by {
        assert [""][..0] == [];
      }
    }
  }

  /** One part of a navigation; the root is its own parent. */
  function Go(segments: seq<string>, part: string): seq<string> {
    if part == "" || part == "." then segments
    else if part == ".." then if segments == [] then [] else segments[..|segments| - 1]
    else segments + [part]
  }

  function GoAll(segments: seq<string>, parts: seq<string>): seq<string> {
    if parts == [] then segments else Go(GoAll(segments, parts[..|parts| - 1]), parts[|parts| - 1])
  }

  predicate Absolute(navigation: string) {
    navigation != "" && navigation[0] == '/'
  }

  function StartOf(path: string, navigation: string): seq<string> {
    if Absolute(navigation) then [] else NonEmpty(Split(path))
  }

  function NavigateTo(path: string, navigation: string): string {
    Render(GoAll(StartOf(path, navigation), Split(navigation)))
  }

  /** `navigate`. */
  method Navigate(path: string, navigation: string) returns (r: string)
    ensures r == NavigateTo(path, navigation)
  {
    var segments := if Absolute(navigation) then [] else NonEmpty(Split(path));
    var parts := Split(navigation);
    for i := 0 to |parts|
      invariant segments == GoAll(StartOf(path, navigation), parts[..i])
    {
      var part := parts[i];
      assert parts[..i + 1][..i] == parts[..i];
      if part == "" || part == "." {
      } else if part == ".." {
        if segments != [] {
          segments := segments[..|segments| - 1];
        }
      } else {
        segments := segments + [part];
      }
    }
    assert parts[..|parts|] == parts;
    r := Render(segments);
  }

  function New(path: string): string {
    NavigateTo("/", path)
  }

  lemma {:induction false} GoAllConcat(segments: seq<string>, a: seq<string>, b: seq<string>)
    ensures GoAll(segments, a + b) == GoAll(GoAll(segments, a), b)
    decreases |b|
  {
    if b == [] {
      assert a + b == a;
    } else {
      assert (a + b)[..|a + b| - 1] == a + b[..|b| - 1];
      GoAllConcat(segments, a, b[..|b| - 1]);
    }
  }

  lemma {:induction false} GoAllNames(segments: seq<string>, parts: seq<string>)
    requires forall p :: p in parts ==> NoSlash(p)
    ensures (forall s :: s in segments ==> IsSegment(s)) ==>
              forall s :: s in GoAll(segments, parts) ==> IsSegment(s)
    ensures (forall s :: s in segments ==> IsName(s)) ==>
              forall s :: s in GoAll(segments, parts) ==> IsName(s)
    decreases |parts|
  {
    if parts != [] {
      assert parts[|parts| - 1] in parts;
      assert forall p :: p in parts[..|parts| - 1] ==> p in parts;
      GoAllNames(segments, parts[..|parts| - 1]);
    }
  }

  lemma SegmentsOf(path: string)
    ensures forall s :: s in NonEmpty(Split(path)) ==> IsSegment(s)
  {
    PartsHaveNoSlash(path);
    NonEmptyMembers(Split(path));
  }

  lemma SegmentsReached(path: string, navigation: string)
    ensures forall s :: s in GoAll(StartOf(path, navigation), Split(navigation)) ==> IsSegment(s)
  {
    SegmentsOf(path);
    PartsHaveNoSlash(navigation);
    GoAllNames(StartOf(path, navigation), Split(navigation));
  }

  // ---- the laws ----------------------------------------------------------------------------

  /** Navigation from a normalised path, or to an absolute one, is normalised. */
  lemma NavigationNormalises(path: string, navigation: string)
    requires Normalised(path) || Absolute(navigation)
    ensures Normalised(NavigateTo(path, navigation))
  {
    PartsHaveNoSlash(navigation);
    if !Absolute(navigation) {
      var names :| (forall n :: n in names ==> IsName(n)) && path == Render(names);
      SegmentsOfRender(names);
    }
    GoAllNames(StartOf(path, navigation), Split(navigation));
  }

  lemma RootIsNormalised()
    ensures Normalised("/")
  {
    assert Render([]) == "/";
  }

  /** Going to `a` and then to `b` is going to `a/b`, from any path. */
  lemma NavigationComposes(path: string, a: string, b: string)
    requires a != "" && !Absolute(b)
    ensures NavigateTo(NavigateTo(path, a), b) == NavigateTo(path, a + "/" + b)
  {
    var start := StartOf(path, a);
    SegmentsReached(path, a);
    SegmentsOfRender(GoAll(start, Split(a)));
    SplitConcat(a + "/" + b, a, b);
    GoAllConcat(start, Split(a), Split(b));
    assert StartOf(path, a + "/" + b) == start;
  }

  lemma {:induction false} GoNames(segments: seq<string>, names: seq<string>)
    requires forall n :: n in names ==> IsName(n)
    ensures GoAll(segments, names) == segments + names
    decreases |names|
  {
    if names != [] {
      var init, last := names[..|names| - 1], names[|names| - 1];
      assert names == init + [last] && last in names;
      GoNames(segments, init);
    }
  }

  lemma NewOfNames(names: seq<string>)
    requires forall n :: n in names ==> IsName(n)
    ensures New(Render(names)) == Render(names)
  {
    if names == [] {
      SplitRoot();
      GoNothing(["", ""]);
    } else {
      SplitRender(names);
      GoAllConcat([], [""], names);
      GoNothing([""]);
      GoNames([], names);
      assert [] + names == names;
    }
  }

  lemma NewOfEmpty()
    ensures New("") == "/"
  {
  }

  lemma {:induction false} GoNothing(parts: seq<string>)
    requires forall i :: 0 <= i < |parts| ==> |parts[i]| == 0
    ensures GoAll([], parts) == []
    decreases |parts|
  {
    if parts != [] {
      GoNothing(parts[..|parts| - 1]);
      assert parts[|parts| - 1] == "";
    }
  }

  /** A normalised path is its own normal form. */
  lemma NormalisedIsFixed(path: string)
    requires Normalised(path)
    ensures New(path) == path
  {
    var names :| (forall n :: n in names ==> IsName(n)) && path == Render(names);
    NewOfNames(names);
  }

  // ---- parents and base names --------------------------------------------------------------

  /** The position of the last slash. */
  function LastSlash(s: string): (i: nat)
    requires '/' in s
    ensures i < |s| && s[i] == '/' && NoSlash(s[i + 1..])
  {
    if s[|s| - 1] == '/' then |s| - 1
    else
      var init := s[..|s| - 1];
      assert s == init + [s[|s| - 1]];
      var i := LastSlash(init);
      assert s[i + 1..] == init[i + 1..] + [s[|s| - 1]];
      i
  }

  /** `basename`; a path always starts with a slash. */
  function Basename(path: string): Option<string>
    requires '/' in path
  {
    var name := path[LastSlash(path) + 1..];
    if name == "" then None else Some(name)
  }

  /** `parent`. */
  function Parent(path: string): string {
    if path == "/" then path
    else if '/' in path then New(path[..LastSlash(path)])
    else New("/")
  }

  lemma LastSlashUnique(s: string, i: nat)
    requires i < |s| && s[i] == '/' && NoSlash(s[i + 1..])
    ensures '/' in s && LastSlash(s) == i
  {
  }

  /** Where the last slash of a path rendered from names is. */
  lemma LastOfNames(names: seq<string>)
    requires names != [] && forall n :: n in names ==> IsName(n)
    ensures var path, init, last := Render(names), names[..|names| - 1], names[|names| - 1];
            && path != "/" && '/' in path && Basename(path) == Some(last)
            && path[..LastSlash(path)] == if init == [] then "" else Render(init)
  {
    var init, last := names[..|names| - 1], names[|names| - 1];
    assert last in names;
    var before := if init == [] then "" else Render(init);
    RenderSnoc(names);
    LastSlashOf(Render(names), before, last);
  }

  lemma RenderSnoc(names: seq<string>)
    requires names != []
    ensures var init, last := names[..|names| - 1], names[|names| - 1];
            Render(names) == (if init == [] then "" else Render(init)) + "/" + last
  {
  }

  lemma LastSlashOf(path: string, before: string, last: string)
    requires path == before + "/" + last && IsSegment(last)
    ensures '/' in path && path[..LastSlash(path)] == before && path[LastSlash(path) + 1..] == last
    ensures path != "/" && Basename(path) == Some(last)
  {
    assert path[|before| + 1..] == last;
    LastSlashUnique(path, |before|);
  }

  /** The parent of a normalised path is where `..` leads, and a path other than the root is its
      parent navigated to its base name; only the root has none. */
  lemma ParentAndBasename(path: string)
    requires Normalised(path)
    ensures Parent(path) == NavigateTo(path, "..") && Normalised(Parent(path))
    ensures '/' in path && (Basename(path).None? <==> path == "/")
    ensures path != "/" ==> NavigateTo(Parent(path), Basename(path).value) == path
  {
    var names :| (forall n :: n in names ==> IsName(n)) && path == Render(names);
    UpFromNames(names);
    if names == [] {
      SplitRoot();
      RootIsNormalised();
    } else {
      var init, last := names[..|names| - 1], names[|names| - 1];
      assert last in names && forall n :: n in init ==> n in names;
      assert names == init + [last];
      LastOfNames(names);
      ParentOfNames(names);
      DownToName(init, last);
    }
  }

  lemma UpFromNames(names: seq<string>)
    requires forall n :: n in names ==> IsName(n)
    ensures NavigateTo(Render(names), "..") ==
            Render(if names == [] then [] else names[..|names| - 1])
  {
    NavigateFromNames(names, "..");
    SplitWhole("..");
    GoOne(names, "..");
  }

  lemma NavigateFromNames(names: seq<string>, navigation: string)
    requires (forall n :: n in names ==> IsName(n)) && !Absolute(navigation)
    ensures NavigateTo(Render(names), navigation) == Render(GoAll(names, Split(navigation)))
  {
    SegmentsOfRender(names);
  }

  lemma GoOne(segments: seq<string>, part: string)
    ensures GoAll(segments, [part]) == Go(segments, part)
  {
  }

  lemma DownToName(names: seq<string>, name: string)
    requires (forall n :: n in names ==> IsName(n)) && IsName(name)
    ensures NavigateTo(Render(names), name) == Render(names + [name])
  {
    assert name[0] in name;
    NavigateFromNames(names, name);
    SplitWhole(name);
    GoOne(names, name);
  }

  lemma ParentOfNames(names: seq<string>)
    requires names != [] && forall n :: n in names ==> IsName(n)
    ensures Parent(Render(names)) == Render(names[..|names| - 1])
  {
    LastOfNames(names);
    var init := names[..|names| - 1];
    assert forall n :: n in init ==> n in names;
    if init == [] {
      NewOfEmpty();
    } else {
      NewOfNames(init);
    }
  }

  // ---- one part at a time ------------------------------------------------------------------

  /** An absolute navigation does not depend on where it starts. */
  lemma AbsoluteReplaces(path: string, navigation: string)
    requires Absolute(navigation)
    ensures NavigateTo(path, navigation) == New(navigation)
  {
  }

  /** From the path of some names, a part that is empty or `.` leads nowhere, `..` to the parent, and a
      name below. */
  lemma OnePart(names: seq<string>, part: string)
    requires (forall n :: n in names ==> IsName(n)) && NoSlash(part)
    ensures NavigateTo(Render(names), part) ==
            if part == "" || part == "." then Render(names)
            else if part == ".." then Render(if names == [] then [] else names[..|names| - 1])
            else Render(names + [part])
  {
    NavigateFromNames(names, part);
    SplitWhole(part);
    GoOne(names, part);
  }

  /** So any navigation is one part after another. */
  lemma PartByPart(path: string, navigation: string, part: string)
    requires navigation != "" && NoSlash(part)
    ensures NavigateTo(path, navigation + "/" + part) == NavigateTo(NavigateTo(path, navigation), part)
  {
    NavigationComposes(path, navigation, part);
  }
}
