/** Python's text operations that the settings file and the inventory rest on: strip,
    find, and lines in text mode. */
module TextLines {
  // ----- Python's string operations ------------------------------------------------------------

  /** str.isspace */
  predicate Space(c: char) {
    var n := c as int;
    || 9 <= n <= 13 || 28 <= n <= 32 || n == 133 || n == 160 || n == 5760 || 8192 <= n <= 8202
    || n == 8232 || n == 8233 || n == 8239 || n == 8287 || n == 12288
  }

  function LStrip(s: string): (r: string)
    ensures |r| <= |s| && r == s[|s| - |r|..]
    ensures r == "" || !Space(r[0])
    ensures s != "" && !Space(s[0]) ==> r == s
  {
    if s != "" && Space(s[0]) then LStrip(s[1..]) else s
  }

  function RStrip(s: string): (r: string)
    ensures r <= s
    ensures r == "" || !Space(r[|r| - 1])
    ensures s != "" && !Space(s[|s| - 1]) ==> r == s
  {
    if s != "" && Space(s[|s| - 1]) then RStrip(s[..|s| - 1]) else s
  }

  function Strip(s: string): string { RStrip(LStrip(s)) }

  /** Among the ASCII characters: tab to carriage return, the four separators, and space. */
  lemma AsciiSpace(c: char)
    requires c as int < 128
    ensures Space(c) <==> c in "\t\n\U{0B}\U{0C}\r\U{1C}\U{1D}\U{1E}\U{1F} "
  {
    var all := "\t\n\U{0B}\U{0C}\r\U{1C}\U{1D}\U{1E}\U{1F} ";
    assert |all| == 10 && all[0] == '\t' && all[1] == '\n' && all[2] == '\U{0B}' && all[3] == '\U{0C}';
    assert all[4] == '\r' && all[5] == '\U{1C}' && all[6] == '\U{1D}' && all[7] == '\U{1E}' && all[8] == '\U{1F}';
  }

  predicate Blank(s: string) { forall i :: 0 <= i < |s| ==> Space(s[i]) }

  /** Whether a string starts and ends in something else. */
  predicate Trimmed(s: string) { s != "" ==> !Space(s[0]) && !Space(s[|s| - 1]) }

  lemma {:induction false} LStripIs(a: string, b: string)
    requires Blank(a) && (b == "" || !Space(b[0]))
    ensures LStrip(a + b) == b
  {
    hide Space;
    if a == "" {
      assert a + b == b;
    } else {
      assert (a + b)[1..] == a[1..] + b;
      LStripIs(a[1..], b);
    }
  }

  lemma {:induction false} RStripIs(a: string, b: string)
    requires Blank(b) && (a == "" || !Space(a[|a| - 1]))
    ensures RStrip(a + b) == a
  {
    hide Space;
    if b == "" {
      assert a + b == a;
    } else {
      assert (a + b)[..|a + b| - 1] == a + b[..|b| - 1];
      RStripIs(a, b[..|b| - 1]);
    }
  }

  lemma {:induction false} LStripDrops(s: string) returns (a: string)
    ensures Blank(a) && s == a + LStrip(s)
  {
    assert Blank("");
    hide Space, Blank;
    a := "";
    if s != "" && Space(s[0]) {
      var rest := LStripDrops(s[1..]);
      BlankMore(s[0], rest);
      a := [s[0]] + rest;
      hide LStrip;
      Cons(s, rest, LStrip(s[1..]));
    }
  }

  lemma Cons(s: string, a: string, b: string)
    requires s != "" && s[1..] == a + b
    ensures s == [s[0]] + a + b
  {
    assert s == [s[0]] + s[1..];
  }

  lemma BlankMore(c: char, s: string)
    requires Space(c) && Blank(s)
    ensures Blank([c] + s) && Blank(s + [c])
  {
    hide Space;
  }

  lemma {:induction false} RStripDrops(s: string) returns (b: string)
    ensures Blank(b) && s == RStrip(s) + b
  {
    assert Blank("");
    hide Space, Blank;
    b := "";
    if s != "" && Space(s[|s| - 1]) {
      var rest := RStripDrops(s[..|s| - 1]);
      BlankMore(s[|s| - 1], rest);
      b := rest + [s[|s| - 1]];
    }
  }

  /** Stripping takes the blanks from both ends, and nothing else. */
  lemma StripIs(a: string, m: string, b: string)
    requires Blank(a) && Trimmed(m) && Blank(b)
    ensures Strip(a + m + b) == m
  {
    hide Space, LStrip, RStrip;
    RStripIs(m, b);
    if m == "" {
      assert a + m + b == a + b + "" && Blank(a + b);
      LStripIs(a + b, "");
      RStripIs("", "");
      assert "" + "" == "";
    } else {
      assert a + m + b == a + (m + b);
      LStripIs(a, m + b);
    }
  }

  lemma SplitStripped(s: string) returns (a: string, b: string)
    ensures Blank(a) && Trimmed(Strip(s)) && Blank(b) && s == a + Strip(s) + b
  {
    a := LStripDrops(s);
    b := RStripDrops(LStrip(s));
    StripTrims(s);
    hide LStrip, RStrip, Blank;
  }

  lemma TrimmedIff(s: string)
    ensures Trimmed(s) <==> Strip(s) == s
  {
    StripTrims(s);
    if Trimmed(s) {
      assert Blank("") && "" + s + "" == s;
      StripIs("", s, "");
    }
  }

  lemma StripTrims(s: string)
    ensures Trimmed(Strip(s))
  {
    hide Space;
    if Strip(s) != "" { assert Strip(s)[0] == LStrip(s)[0]; }
  }

  /** Position of the first c, or the length. */
  function Find(s: string, c: char): (i: nat)
    ensures i <= |s| && (i < |s| ==> s[i] == c)
    ensures forall j :: 0 <= j < i ==> s[j] != c
  {
    if s == "" || s[0] == c then 0 else 1 + Find(s[1..], c)
  }

  /** Position of the first " #", or the length. */
  function FindComment(s: string): (i: nat)
    ensures i <= |s| && (i < |s| ==> i + 1 < |s| && s[i] == ' ' && s[i + 1] == '#')
    ensures forall j :: 0 <= j < i && j + 1 < |s| ==> !(s[j] == ' ' && s[j + 1] == '#')
  {
    if |s| < 2 then |s|
    else if s[0] == ' ' && s[1] == '#' then 0
    else 1 + FindComment(s[1..])
  }

  // ----- Lines -------------------------------------------------------------------------------------

  /** Reading in text mode: every line end, CR LF or CR alone too, becomes a newline.
      Writing changes nothing. */
  function Translate(s: string): (r: string)
    ensures r == "" <==> s == ""
    ensures '\r' !in r
    ensures Terminates(s) ==> Terminates(r)
  {
    if s == "" then "" else [if s[0] == '\r' then '\n' else s[0]] + Translate(s[FirstUnit(s)..])
  }

  /** How many characters become the first one. */
  function FirstUnit(s: string): (n: nat)
    ensures s != "" ==> 1 <= n <= |s|
  {
    if |s| > 1 && s[0] == '\r' && s[1] == '\n' then 2 else 1
  }

  /** One character, or CR LF, at a time. */
  lemma TranslateUnits(c: char, rest: string)
    ensures Translate("") == "" && Translate("\r\n" + rest) == "\n" + Translate(rest)
    ensures c != '\r' ==> Translate([c] + rest) == [c] + Translate(rest)
    ensures rest == "" || rest[0] != '\n' ==> Translate("\r" + rest) == "\n" + Translate(rest)
  {
    assert ("\r\n" + rest)[2..] == rest && ("\r" + rest)[1..] == rest && ([c] + rest)[1..] == rest;
  }

  /** readlines() on what open() yields */
  function ReadLines(raw: string): seq<string> { Lines(Translate(raw)) }

  function Lines(s: string): seq<string>
    decreases |s|
  {
    if s == "" then [] else [s[..Cut(s)]] + Lines(s[Cut(s)..])
  }

  lemma {:induction false} JoinLines(s: string)
    ensures Join(Lines(s)) == s
    decreases |s|
  {
    if s != "" {
      JoinLines(s[Cut(s)..]);
      assert s == s[..Cut(s)] + s[Cut(s)..];
      hide Cut;
      assert Lines(s)[1..] == Lines(s[Cut(s)..]);
    }
  }

  /** The length of the first line. */
  function Cut(s: string): (n: nat)
    ensures n <= |s| && (s != "" ==> n > 0)
  {
    if Find(s, '\n') == |s| then |s| else Find(s, '\n') + 1
  }

  lemma {:induction false} LinesWellFormed(s: string)
    requires '\r' !in s
    ensures WellFormed(Lines(s))
    decreases |s|
  {
    if s != "" {
      LinesWellFormed(s[Cut(s)..]);
      FirstLine(s, Lines(s[Cut(s)..]));
    }
  }

  lemma ReadWellFormed(raw: string)
    ensures WellFormed(ReadLines(raw))
  {
    LinesWellFormed(Translate(raw));
  }

  lemma FirstLine(s: string, rest: seq<string>)
    requires '\r' !in s && s != "" && WellFormed(rest) && (Cut(s) == |s| ==> rest == [])
    ensures WellFormed([s[..Cut(s)]] + rest)
  {
    var l := s[..Cut(s)];
    assert Line(l) && (Cut(s) < |s| ==> Terminates(l));
    hide Line, Terminates, Cut;
    PrependLine(l, rest);
  }

  lemma PrependLine(l: string, rest: seq<string>)
    requires Line(l) && (rest != [] ==> Terminates(l)) && WellFormed(rest)
    ensures WellFormed([l] + rest)
  {
    hide Line, Terminates;
    var all := [l] + rest;
    forall j | 0 <= j < |all| ensures Line(all[j]) && (j < |all| - 1 ==> Terminates(all[j])) {
      if j > 0 { assert all[j] == rest[j - 1]; }
    }
  }

  /** writelines() */
  function Join(ls: seq<string>): string {
    if ls == [] then "" else ls[0] + Join(ls[1..])
  }

  predicate Line(l: string) { l != "" && '\r' !in l && forall j :: 0 <= j < |l| - 1 ==> l[j] != '\n' }

  predicate Terminates(l: string) { l != "" && l[|l| - 1] == '\n' }

  predicate WellFormed(ls: seq<string>) {
    forall i :: 0 <= i < |ls| ==> Line(ls[i]) && (i < |ls| - 1 ==> Terminates(ls[i]))
  }

  lemma {:induction false} LinesJoin(ls: seq<string>)
    requires WellFormed(ls)
    ensures Lines(Join(ls)) == ls
  {
    if ls != [] {
      var l, rest := ls[0], ls[1..];
      assert WellFormed(rest) by {
        forall i | 0 <= i < |rest| ensures rest[i] == ls[i + 1] {}
      }
      LinesJoin(rest);
      assert Line(l);
      CutAfter(l, Join(rest));
      assert ls == [l] + rest;
      assert (l + Join(rest))[..|l|] == l && (l + Join(rest))[|l|..] == Join(rest);
    }
  }

  lemma CutAfter(l: string, rest: string)
    requires Line(l) && (rest == "" || Terminates(l))
    ensures Cut(l + rest) == |l|
  {
    var s := l + rest;
    assert forall j :: 0 <= j < |l| ==> s[j] == l[j];
    if Terminates(l) { assert s[|l| - 1] == '\n'; }
  }

  lemma {:induction false} TranslateAppend(a: string, b: string)
    requires a == "" || a[|a| - 1] != '\r'
    ensures Translate(a + b) == Translate(a) + Translate(b)
    decreases |a|
  {
    if a == "" {
      assert a + b == b;
    } else {
      var n := FirstUnit(a);
      assert FirstUnit(a + b) == n;
      hide FirstUnit;
      assert (a + b)[n..] == a[n..] + b;
      TranslateAppend(a[n..], b);
    }
  }

  lemma {:induction false} TranslateSame(s: string)
    requires '\r' !in s
    ensures Translate(s) == s
  {
    if s != "" { TranslateSame(s[1..]); }
  }

  lemma {:induction false} FindBeyond(a: string, b: string, c: char)
    requires c !in a
    ensures Find(a + b, c) == |a| + Find(b, c)
  {
    if a == "" {
      assert a + b == b;
    } else {
      assert (a + b)[1..] == a[1..] + b;
      FindBeyond(a[1..], b, c);
    }
  }

  lemma {:induction false} FindEarly(a: string, b: string, c: char)
    requires c in a
    ensures Find(a + b, c) == Find(a, c) < |a|
  {
    if a[0] != c {
      assert (a + b)[1..] == a[1..] + b;
      FindEarly(a[1..], b, c);
    }
  }

  lemma {:induction false} LinesAppend(a: string, b: string)
    requires a == "" || Terminates(a)
    ensures Lines(a + b) == Lines(a) + Lines(b)
    decreases |a|
  {
    hide *;
    if a == "" {
      assert a + b == b;
      NoLines();
    } else {
      CutEarly(a, b);
      SuffixTerminates(a, Cut(a));
      var first, rest := a[..Cut(a)], a[Cut(a)..];
      assert (a + b)[..Cut(a)] == first && (a + b)[Cut(a)..] == rest + b;
      LinesAppend(rest, b);
      UnfoldLines(a);
      UnfoldLines(a + b);
      Regroup([first], Lines(rest), Lines(b));
    }
  }

  lemma NoLines()
    ensures Lines("") == [] && !Terminates("")
  {}

  lemma Regroup(a: seq<string>, b: seq<string>, c: seq<string>)
    ensures a + (b + c) == a + b + c
  {}

  lemma SuffixTerminates(a: string, n: nat)
    requires Terminates(a) && n <= |a|
    ensures a[n..] == "" || Terminates(a[n..])
  {}

  lemma UnfoldLines(s: string)
    requires s != ""
    ensures Lines(s) == [s[..Cut(s)]] + Lines(s[Cut(s)..])
  {
    hide Cut;
  }

  lemma CutEarly(a: string, b: string)
    requires Terminates(a)
    ensures Cut(a + b) == Cut(a)
  {
    FindEarly(a, b, '\n');
  }

  lemma ReadAppend(a: string, b: string)
    requires a == "" || Terminates(a)
    ensures ReadLines(a + b) == ReadLines(a) + ReadLines(b)
  {
    TranslateAppend(a, b);
    LinesAppend(Translate(a), Translate(b));
  }

  /** Lines that were read and are written back are read again. */
  lemma ReadJoin(ls: seq<string>)
    requires WellFormed(ls)
    ensures ReadLines(Join(ls)) == ls
  {
    JoinPlain(ls);
    TranslateSame(Join(ls));
    LinesJoin(ls);
  }

  lemma {:induction false} JoinPlain(ls: seq<string>)
    requires forall i :: 0 <= i < |ls| ==> '\r' !in ls[i]
    ensures '\r' !in Join(ls)
  {
    if ls != [] { JoinPlain(ls[1..]); }
  }

  lemma {:induction false} JoinAppend(a: seq<string>, b: seq<string>)
    ensures Join(a + b) == Join(a) + Join(b)
  {
    if a == [] {
      assert a + b == b;
    } else {
      assert (a + b)[1..] == a[1..] + b;
      JoinAppend(a[1..], b);
    }
  }

  lemma JoinLast(ls: seq<string>, l: string)
    ensures Join(ls + [l]) == Join(ls) + l
  {
    JoinAppend(ls, [l]);
    assert Join([l]) == l + Join([]);
  }
}
