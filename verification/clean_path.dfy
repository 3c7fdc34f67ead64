/**
 Lexical path cleaning: a rewriting of path text that keeps the location it names from every starting
 directory, and gives any two texts for the same locations the same result.
 */
module CleanPaths {
  import opened Splitting

  predicate Rooted(p: string)
  {
    p != "" && p[0] == '/'
  }

  predicate Skipped(segment: string)
  {
    segment == "" || segment == "."
  }

  predicate Name(segment: string)
  {
    !Skipped(segment) && segment != ".." && '/' !in segment
  }

  // ---- what a path means ----

  /** A location is the list of names from the root; above the root there is only the root. */
  function Go(location: seq<string>, segment: string): seq<string>
  {
    if Skipped(segment) then location
    else if segment == ".." then (if location == [] then [] else location[..|location| - 1])
    else location + [segment]
  }

  function Walk(location: seq<string>, segments: seq<string>): seq<string>
  {
    if segments == [] then location
    else Go(Walk(location, segments[..|segments| - 1]), segments[|segments| - 1])
  }

  function Resolve(start: seq<string>, p: string): seq<string>
  {
    Walk(if Rooted(p) then [] else start, Split(p, '/'))
  }

  // ---- cleaning ----

  function Push(out: seq<string>, segment: string, rooted: bool): seq<string>
  {
    if Skipped(segment) then out
    else if segment == ".." then
      (if out != [] && out[|out| - 1] != ".." then out[..|out| - 1]
       else if !rooted then out + [".."]
       else out)
    else out + [segment]
  }

  function Stack(segments: seq<string>, rooted: bool): seq<string>
  {
    if segments == [] then []
    else Push(Stack(segments[..|segments| - 1], rooted), segments[|segments| - 1], rooted)
  }

  function Rendered(rooted: bool, out: seq<string>): string
  {
    var joined := Joined(out, '/');
    if rooted then "/" + joined else if joined == "" then "." else joined
  }

  function Cleaned(p: string): string
  {
    if p == "" then "." else Rendered(Rooted(p), Stack(Split(p, '/'), Rooted(p)))
  }

  method CleanPath(p: string) returns (r: string)
    ensures r == Cleaned(p)
  {
    hide Joined, Split;
    if p == "" {
      return ".";
    }
    var rooted := p[0] == '/';
    var out: seq<string> := [];
    var segments := Split(p, '/');
    for i := 0 to |segments|
      invariant out == Stack(segments[..i], rooted)
    {
      var segment := segments[i];
      assert segments[..i + 1][..i] == segments[..i];
      if segment == "" || segment == "." {
      } else if segment == ".." {
        if out != [] && out[|out| - 1] != ".." {
          out := out[..|out| - 1];
        } else if !rooted {
          out := out + [".."];
        }
      } else {
        out := out + [segment];
      }
    }
    assert segments[..|segments|] == segments;
    var joined := Joined(out, '/');
    if rooted {
      return "/" + joined;
    }
    return if joined == "" then "." else joined;
  }

  // ---- the shape of a cleaned path ----

  function Ups(count: nat): seq<string>
  {
    seq(count, _ => "..")
  }

  /** Some steps up, none in a rooted path, then names. */
  ghost predicate Form(out: seq<string>, ups: nat, names: seq<string>, rooted: bool)
  {
    out == Ups(ups) + names && (rooted ==> ups == 0) && forall n :: n in names ==> Name(n)
  }

  lemma {:induction false} PushForm(out: seq<string>, ups: nat, names: seq<string>, segment: string, rooted: bool)
    returns (u: nat, n: seq<string>)
    requires Form(out, ups, names, rooted) && '/' !in segment
    ensures Form(Push(out, segment, rooted), u, n, rooted)
  {
    u, n := ups, names;
    if segment == ".." {
      if names != [] {
        n := names[..|names| - 1];
        assert names[|names| - 1] in names;
      } else if !rooted {
        u := ups + 1;
        assert Ups(ups) + [".."] == Ups(ups + 1);
      }
    } else if !Skipped(segment) {
      n := names + [segment];
    }
  }

  lemma {:induction false} StackForm(segments: seq<string>, rooted: bool) returns (ups: nat, names: seq<string>)
    requires forall s :: s in segments ==> '/' !in s
    ensures Form(Stack(segments, rooted), ups, names, rooted)
  {
    if segments == [] {
      ups, names := 0, [];
    } else {
      var init, last := segments[..|segments| - 1], segments[|segments| - 1];
      ups, names := StackForm(init, rooted);
      ups, names := PushForm(Stack(init, rooted), ups, names, last, rooted);
    }
  }

  // ---- the same location ----

  lemma {:induction false} RootedHasNoUps(out: seq<string>, names: seq<string>)
    requires Form(out, 0, names, true)
    ensures forall i :: 0 <= i < |out| ==> out[i] != ".."
  {
    assert Ups(0) + names == names;
    forall i | 0 <= i < |out| ensures out[i] != ".." {
      assert out[i] in names;
    }
  }

  lemma {:induction false} PushWalk(location: seq<string>, out: seq<string>, ups: nat, names: seq<string>,
                                    segment: string, rooted: bool)
    requires Form(out, ups, names, rooted) && (rooted ==> location == [])
    ensures Walk(location, Push(out, segment, rooted)) == Go(Walk(location, out), segment)
  {
    if segment == ".." && out != [] && out[|out| - 1] != ".." {
      var init, last := out[..|out| - 1], out[|out| - 1];
      assert out == init + [last];
      assert last in names;
    } else if segment == ".." && rooted {
      RootedHasNoUps(out, names);
      assert out == [];
    } else if !Skipped(segment) {
    }
  }

  lemma {:induction false} StackWalk(location: seq<string>, segments: seq<string>, rooted: bool)
    requires forall s :: s in segments ==> '/' !in s
    requires rooted ==> location == []
    ensures Walk(location, Stack(segments, rooted)) == Walk(location, segments)
  {
    if segments != [] {
      var init, last := segments[..|segments| - 1], segments[|segments| - 1];
      StackWalk(location, init, rooted);
      var ups, names := StackForm(init, rooted);
      PushWalk(location, Stack(init, rooted), ups, names, last, rooted);
    }
  }

  /** Reading a rendered path back. */
  lemma {:induction false} RenderedWalk(start: seq<string>, rooted: bool, out: seq<string>, ups: nat,
                                     names: seq<string>)
    requires Form(out, ups, names, rooted)
    ensures Rooted(Rendered(rooted, out)) == rooted
    ensures Resolve(start, Rendered(rooted, out)) == Walk(if rooted then [] else start, out)
  {
    var joined, r := Joined(out, '/'), Rendered(rooted, out);
    assert forall s :: s in out ==> '/' !in s && s != "";
    if out == [] {
      assert Split("", '/') == [""];
      assert Walk(start, ["."]) == Go(Walk(start, []), ".") by { assert ["."][..0] == []; }
      SplitNone(".", '/');
      if rooted {
        RootedWalk("", []);
      }
    } else {
      SplitJoined(out, '/');
      if rooted {
        RootedWalk(joined, out);
      }
    }
  }

  lemma {:induction false} RootedWalk(joined: string, out: seq<string>)
    requires Split(joined, '/') == out || (joined == "" && out == [])
    ensures Walk([], Split("/" + joined, '/')) == Walk([], out)
  {
    assert ("/" + joined)[1..] == joined;
    var parts := Split(joined, '/');
    assert Split("/" + joined, '/') == [""] + parts;
    WalkFromNothing([], parts);
    if out == [] {
      assert Walk([], [""]) == Go(Walk([], []), "") by { assert [""][..0] == []; }
    }
  }

  lemma {:induction false} WalkFromNothing(location: seq<string>, segments: seq<string>)
    ensures Walk(location, [""] + segments) == Walk(location, segments)
  {
    if segments == [] {
      assert [""] + segments == [""] && [""][..0] == [];
    } else {
      var init, last := segments[..|segments| - 1], segments[|segments| - 1];
      WalkFromNothing(location, init);
      assert ([""] + segments)[..|segments|] == [""] + init;
    }
  }

  /** Cleaning keeps the location from every starting directory, and whether the path is rooted. */
  lemma {:induction false} CleanedKeepsLocation(start: seq<string>, p: string)
    ensures Resolve(start, Cleaned(p)) == Resolve(start, p) && Rooted(Cleaned(p)) == Rooted(p)
  {
    JoinedSplit(p, '/');
    var segments, rooted := Split(p, '/'), Rooted(p);
    if p == "" {
      SplitNone(".", '/');
      assert ["."][..0] == [] && [""][..0] == [];
    } else {
      var ups, names := StackForm(segments, rooted);
      RenderedWalk(start, rooted, Stack(segments, rooted), ups, names);
      StackWalk(if rooted then [] else start, segments, rooted);
    }
  }

  // ---- one text for each meaning ----

  lemma {:induction false} WalkUps(location: seq<string>, ups: nat)
    requires ups <= |location|
    ensures Walk(location, Ups(ups)) == location[..|location| - ups]
  {
    if ups > 0 {
      WalkUps(location, ups - 1);
      assert Ups(ups)[..ups - 1] == Ups(ups - 1);
    }
  }

  lemma {:induction false} WalkNames(location: seq<string>, segments: seq<string>, names: seq<string>)
    requires forall n :: n in names ==> Name(n)
    ensures Walk(location, segments + names) == Walk(location, segments) + names
  {
    if names == [] {
      assert segments + names == segments;
      assert Walk(location, segments) + names == Walk(location, segments);
    } else {
      var init, last := names[..|names| - 1], names[|names| - 1];
      WalkNames(location, segments, init);
      assert names == init + [last] && last in names;
      assert segments + names == segments + init + [last];
      assert Walk(location, segments) + init + [last] == Walk(location, segments) + names;
    }
  }

  lemma {:induction false} WalkForm(location: seq<string>, out: seq<string>, ups: nat, names: seq<string>, rooted: bool)
    requires Form(out, ups, names, rooted) && ups <= |location|
    ensures Walk(location, out) == location[..|location| - ups] + names
  {
    WalkUps(location, ups);
    WalkNames(location, Ups(ups), names);
  }

  lemma {:induction false} SlashShows(there: seq<string>, more: nat, a: seq<string>, less: nat, b: seq<string>)
    requires there == seq(more, _ => "/") + a == seq(less, _ => "/") + b
    ensures less < more ==> "/" in b
  {
    if less < more {
      assert there[less] == "/";
      assert b[0] == there[less];
    }
  }

  /** A cleaned path is determined by where it leads from a deep enough directory. */
  lemma {:induction false} FormsDiffer(a: seq<string>, aUps: nat, aNames: seq<string>,
                                       b: seq<string>, bUps: nat, bNames: seq<string>, rooted: bool)
    requires Form(a, aUps, aNames, rooted) && Form(b, bUps, bNames, rooted)
    requires var deep := seq(aUps + bUps, _ => "/"); Walk(deep, a) == Walk(deep, b)
    ensures a == b
  {
    var deep := seq(aUps + bUps, _ => "/");
    WalkForm(deep, a, aUps, aNames, rooted);
    WalkForm(deep, b, bUps, bNames, rooted);
    var there := Walk(deep, a);
    assert deep[..bUps] == seq(bUps, _ => "/") && deep[..aUps] == seq(aUps, _ => "/");
    SlashShows(there, bUps, aNames, aUps, bNames);
    SlashShows(there, aUps, bNames, bUps, aNames);
    assert !Name("/");
    assert aNames == there[bUps..] && bNames == there[aUps..];
  }

  ghost predicate SameLocations(p: string, q: string)
  {
    Rooted(p) == Rooted(q) && forall start: seq<string> :: Resolve(start, p) == Resolve(start, q)
  }

  lemma {:induction false} CleanedForm(p: string) returns (out: seq<string>, ups: nat, names: seq<string>)
    ensures Form(out, ups, names, Rooted(p)) && Cleaned(p) == Rendered(Rooted(p), out)
  {
    JoinedSplit(p, '/');
    if p == "" {
      out, ups, names := [], 0, [];
    } else {
      out := Stack(Split(p, '/'), Rooted(p));
      ups, names := StackForm(Split(p, '/'), Rooted(p));
    }
  }

  /** Two paths clean to the same text exactly when they are both rooted or both not, and name the
      same location from every starting directory. */
  lemma {:induction false} CleanedIffSameLocations(p: string, q: string)
    ensures Cleaned(p) == Cleaned(q) <==> SameLocations(p, q)
  {
    hide Cleaned, Resolve, Form, Rendered;
    if Cleaned(p) == Cleaned(q) {
      CleanedKeepsLocation([], p);
      CleanedKeepsLocation([], q);
      forall start: seq<string> ensures Resolve(start, p) == Resolve(start, q) {
        CleanedKeepsLocation(start, p);
        CleanedKeepsLocation(start, q);
      }
    }
    if SameLocations(p, q) {
      var a, aUps, aNames := CleanedForm(p);
      var b, bUps, bNames := CleanedForm(q);
      var deep := seq(aUps + bUps, _ => "/");
      CleanedKeepsLocation(deep, p);
      CleanedKeepsLocation(deep, q);
      RenderedWalk(deep, Rooted(p), a, aUps, aNames);
      RenderedWalk(deep, Rooted(q), b, bUps, bNames);
      if Rooted(p) {
        RootedForms(a, aUps, aNames, b, bUps, bNames);
      } else {
        FormsDiffer(a, aUps, aNames, b, bUps, bNames, false);
      }
    }
  }

  lemma {:induction false} RootedForms(a: seq<string>, aUps: nat, aNames: seq<string>,
                                       b: seq<string>, bUps: nat, bNames: seq<string>)
    requires Form(a, aUps, aNames, true) && Form(b, bUps, bNames, true)
    requires Walk([], a) == Walk([], b)
    ensures a == b
  {
    var deep := seq(0, _ => "/");
    assert deep == [];
    FormsDiffer(a, aUps, aNames, b, bUps, bNames, true);
  }

  lemma {:induction false} CleanedIdempotent(p: string)
    ensures Cleaned(Cleaned(p)) == Cleaned(p)
  {
    hide Cleaned, Resolve;
    CleanedKeepsLocation([], p);
    forall start: seq<string> ensures Resolve(start, Cleaned(p)) == Resolve(start, p) {
      CleanedKeepsLocation(start, p);
    }
    CleanedIffSameLocations(Cleaned(p), p);
  }

  /** No cleaned path has an empty or `.` segment, except `.` itself and the root, and `..` only leads. */
  lemma {:induction false} CleanedShape(p: string) returns (ups: nat, names: seq<string>)
    ensures forall n :: n in names ==> Name(n)
    ensures Rooted(p) ==> Cleaned(p) == "/" + Joined(names, '/')
    ensures !Rooted(p) ==> Cleaned(p) == if ups == 0 && names == [] then "." else Joined(Ups(ups) + names, '/')
  {
    var out;
    out, ups, names := CleanedForm(p);
    if Rooted(p) {
      assert Ups(0) + names == names;
    } else if out == [] {
      assert ups == 0 && names == [];
    } else {
      assert out[0] in out;
      assert out[0] != "" && '/' !in out[0];
    }
  }
}
