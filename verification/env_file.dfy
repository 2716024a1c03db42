/** The .env settings file as a get/put pair: _parse_env_file, _file_get, _write_env_key
    and clear_override of entrypoint/settings_store.py, on the characters in the file. */
module EnvFile {
  import opened Collections
  import opened TextLines

  // ----- Parsing -------------------------------------------------------------------------------------

  predicate Quoted(s: string) {
    |s| >= 2 && s[0] == s[|s| - 1] && s[0] in "\"'"
  }

  function ParseValue(rest: string): (r: string)
    ensures |r| <= |rest|
  {
    var v := Strip(rest[..FindComment(rest)]);
    if Quoted(v) then v[1..|v| - 1] else v
  }

  function ParseLine(line: string): Option<(string, string)> {
    var s := Strip(line);
    var i := Find(s, '=');
    if s == "" || s[0] == '#' || i == |s| then None
    else Some((Strip(s[..i]), ParseValue(s[i + 1..])))
  }

  /** The last line with a key wins. */
  function Parsed(ls: seq<string>): map<string, string> {
    if ls == [] then map[]
    else
      var m, p := Parsed(ls[..|ls| - 1]), ParseLine(ls[|ls| - 1]);
      if p.Some? then m[p.value.0 := p.value.1] else m
  }

  function Lookup(m: map<string, string>, key: string): Option<string> {
    if key in m then Some(m[key]) else None
  }

  function Get(text: string, key: string): Option<string> { Lookup(Parsed(ReadLines(text)), key) }

  // ----- Editing ------------------------------------------------------------------------------------

  predicate Matched(line: string, key: string) {
    key + "=" <= LStrip(line) || key + " =" <= LStrip(line)
  }

  function Entry(key: string, value: string): string { key + "=" + value + "\n" }

  function Replaced(ls: seq<string>, key: string, value: string): (r: seq<string>)
    ensures |r| == |ls|
    ensures forall i :: 0 <= i < |ls| ==> r[i] == if Matched(ls[i], key) then Entry(key, value) else ls[i]
  {
    seq(|ls|, i requires 0 <= i < |ls| => if Matched(ls[i], key) then Entry(key, value) else ls[i])
  }

  predicate AnyMatch(ls: seq<string>, key: string) {
    exists i :: 0 <= i < |ls| && Matched(ls[i], key)
  }

  /** The lines with a newline after the last one. */
  function Ended(ls: seq<string>): seq<string> {
    if ls == [] || Terminates(ls[|ls| - 1]) then ls else ls[..|ls| - 1] + [ls[|ls| - 1] + "\n"]
  }

  function PutLines(ls: seq<string>, key: string, value: string): seq<string> {
    if AnyMatch(ls, key) then Replaced(ls, key, value) else Ended(ls) + [Entry(key, value)]
  }

  function Put(text: string, key: string, value: string): string { Join(PutLines(ReadLines(text), key, value)) }

  function Kept(ls: seq<string>, key: string): (r: seq<string>)
    ensures forall l :: l in r <==> l in ls && !Matched(l, key)
  {
    if ls == [] then []
    else Kept(ls[..|ls| - 1], key) + if Matched(ls[|ls| - 1], key) then [] else [ls[|ls| - 1]]
  }

  function Clear(text: string, key: string): string { Join(Kept(ReadLines(text), key)) }

  // ----- What a key and a value must look like --------------------------------------------

  /** As every editable key does. */
  predicate KeyName(key: string) {
    key != "" && key[0] != '#' && '=' !in key && forall i :: 0 <= i < |key| ==> !Space(key[i])
  }

  /** The value ends where its line does: a carriage return may only be its last character,
      where it becomes part of the line end. */
  predicate OneLine(value: string) { '\n' !in value && forall i :: 0 <= i < |value| - 1 ==> value[i] != '\r' }

  /** What is left of a value in the line of its key, and the lines that it adds. */
  function Head(value: string): string {
    var t := Translate(value + "\n");
    t[..Find(t, '\n')]
  }

  function Continuations(value: string): seq<string> {
    var t := Translate(value + "\n");
    Last(t);
    Lines(t[Find(t, '\n') + 1..])
  }

  lemma Last(t: string)
    requires Terminates(t)
    ensures Find(t, '\n') < |t|
  {}

  /** No characters that end a line. */
  predicate Unbroken(value: string) { '\n' !in value && '\r' !in value }

  /** No comment starts in s. */
  predicate NoComment(s: string) { forall j :: 0 <= j < |s| - 1 ==> !(s[j] == ' ' && s[j + 1] == '#') }

  /** One line without blanks at its ends, without a comment in it, and not in quotes. */
  predicate Clean(value: string) {
    && OneLine(value) && Trimmed(value) && NoComment(value)
    && !(|value| >= 2 && value[0] == value[|value| - 1] && (value[0] == '"' || value[0] == '\''))
  }

  lemma CleanIff(value: string)
    ensures Clean(value) <==>
      OneLine(value) && Strip(value) == value && FindComment(value) == |value| && !Quoted(value)
  {
    TrimmedIff(value);
    assert FindComment(value) == |value| <==> NoComment(value);
    hide Trimmed, OneLine, Strip, FindComment, NoComment;
  }

  /** A line that sets the key in a spacing the editor does not recognise. */
  predicate Stray(line: string, key: string) {
    ParseLine(line).Some? && ParseLine(line).value.0 == key && !Matched(line, key)
  }

  predicate NoStray(ls: seq<string>, key: string) {
    forall i :: 0 <= i < |ls| ==> !Stray(ls[i], key)
  }

  /** What the last stray line after every recognised one sets. */
  function StrayValue(ls: seq<string>, key: string): Option<string> {
    if ls == [] || Matched(ls[|ls| - 1], key) then None
    else if Stray(ls[|ls| - 1], key) then Some(ParseLine(ls[|ls| - 1]).value.1)
    else StrayValue(ls[..|ls| - 1], key)
  }

  // ----- What a written line parses to -----------------------------------------------------

  lemma {:induction false} RStripAfter(a: string, b: string)
    requires a != "" && !Space(a[|a| - 1])
    ensures RStrip(a + b) == a + RStrip(b)
    decreases |b|
  {
    if b != "" && Space(b[|b| - 1]) {
      assert (a + b)[..|a + b| - 1] == a + b[..|b| - 1];
      RStripAfter(a, b[..|b| - 1]);
    } else if b == "" {
      assert a + b == a;
    }
  }

  lemma {:induction false} LStripBefore(a: string, b: string)
    ensures LStrip(a + b) == if LStrip(a) == "" then LStrip(b) else LStrip(a) + b
  {
    if a == "" {
      assert a + b == b;
    } else if Space(a[0]) {
      assert (a + b)[1..] == a[1..] + b;
      LStripBefore(a[1..], b);
    }
  }

  lemma {:induction false} FindAfter(a: string, c: char, b: string)
    requires c !in a
    ensures Find(a + [c] + b, c) == |a|
  {
    var s := a + [c] + b;
    assert s[|a|] == c;
    forall j | 0 <= j < |a| ensures s[j] != c { assert s[j] == a[j]; }
  }

  lemma SpaceFacts()
    ensures Space(' ') && Space('\n') && Space('\r') && !Space('=')
  {}

  predicate Spaces(s: string) { forall i :: 0 <= i < |s| ==> s[i] == ' ' }

  lemma {:induction false} SpacesVanish(gap: string)
    requires Spaces(gap)
    ensures RStrip(gap) == ""
  {
    SpaceFacts();
    hide Space;
    if gap != "" { SpacesVanish(gap[..|gap| - 1]); }
  }

  lemma NameStrips(key: string, gap: string)
    requires KeyName(key) && Spaces(gap)
    ensures Strip(key + gap) == key
  {
    hide Space;
    RStripAfter(key, gap);
    SpacesVanish(gap);
  }

  lemma StripMatched(line: string, left: string, rest: string)
    requires LStrip(line) == left + "=" + rest
    ensures Strip(line) == left + "=" + RStrip(rest)
  {
    SpaceFacts();
    hide Space, LStrip;
    RStripAfter(left + "=", rest);
  }

  /** A line that starts with the key, spaces and "=" sets the key, to whatever follows. */
  lemma ParseMatched(line: string, key: string, gap: string, rest: string)
    requires KeyName(key) && Spaces(gap) && LStrip(line) == key + gap + "=" + rest
    ensures ParseLine(line) == Some((key, ParseValue(RStrip(rest))))
  {
    var left := key + gap;
    assert left != "" && left[0] == key[0] && '=' !in left;
    assert left[0] != '#';
    hide *;
    StripMatched(line, left, rest);
    NameStrips(key, gap);
    ParseParts(line, left, RStrip(rest));
  }

  lemma ParseParts(line: string, left: string, x: string)
    requires Strip(line) == left + "=" + x && (left == "" || left[0] != '#') && '=' !in left
    ensures ParseLine(line) == Some((Strip(left), ParseValue(x)))
  {
    hide Strip, ParseValue, Find;
    FindAfter(left, '=', x);
    var s := Strip(line);
    assert s[0] == if left == "" then '=' else left[0];
    assert s[..|left|] == left && s[|left| + 1..] == x;
  }

  lemma MatchedSetsKey(line: string, key: string)
    requires KeyName(key) && Matched(line, key)
    ensures ParseLine(line).Some? && ParseLine(line).value.0 == key
  {
    assert Spaces("") && Spaces(" ");
    hide *;
    var s := LStrip(line);
    MatchedIs(line, key);
    if key + "=" <= s {
      var rest := AfterPrefix(key + "=", s);
      assert key + "" == key;
      ParseMatched(line, key, "", rest);
    } else {
      var rest := AfterPrefix(key + " =", s);
      OneSpace(key, rest);
      ParseMatched(line, key, " ", rest);
    }
  }

  lemma AfterPrefix(p: string, s: string) returns (rest: string)
    requires p <= s
    ensures s == p + rest
  {
    rest := s[|p|..];
  }

  lemma OneSpace(key: string, rest: string)
    ensures key + " =" + rest == key + " " + "=" + rest
  {}

  lemma NewlineStrips(x: string)
    ensures RStrip(x + "\n") == RStrip(x)
  {
    SpaceFacts();
    hide Space;
    assert (x + "\n")[..|x|] == x;
  }

  lemma EntryParses(key: string, value: string)
    requires KeyName(key)
    ensures ParseLine(Entry(key, value)) == Some((key, ParseValue(RStrip(value)))) && Matched(Entry(key, value), key)
  {
    assert !Space(key[0]) && Spaces("");
    hide *;
    NewlineStrips(value);
    EntryStarts(key, value);
    ParseMatched(Entry(key, value), key, "", value + "\n");
  }

  lemma EntryStarts(key: string, value: string)
    requires key != "" && !Space(key[0])
    ensures var e := Entry(key, value);
      LStrip(e) == e == key + "" + "=" + (value + "\n") && Matched(e, key)
  {
    hide Space, LStrip;
    var e := Entry(key, value);
    assert e == (key + "=") + (value + "\n");
    assert e[0] == key[0];
    assert LStrip(e) == e;
    assert key + "" == key;
  }

  lemma EntryIsLine(key: string, value: string)
    requires KeyName(key) && Unbroken(value)
    ensures Line(Entry(key, value)) && Terminates(Entry(key, value))
  {
    SpaceFacts();
    hide Space;
    var e := Entry(key, value);
    forall j | 0 <= j < |e| - 1 ensures e[j] != '\n' && e[j] != '\r' {
      assert e[j] == if j < |key| then key[j] else if j == |key| then '=' else value[j - |key| - 1];
    }
  }

  /** A value comes back from its line exactly if it is clean. */
  lemma CleanComesBack(value: string)
    requires OneLine(value)
    ensures ParseValue(RStrip(value)) == value <==> Clean(value)
  {
    hide *;
    if ParseValue(RStrip(value)) == value { OnlyCleanStays(value, RStrip(value)); }
    if Clean(value) { CleanStays(value); }
  }

  lemma CleanStays(value: string)
    requires Clean(value)
    ensures RStrip(value) == value == ParseValue(value)
  {
    CleanIff(value);
    hide Space, FindComment, Quoted, LStrip, RStrip, OneLine, Clean;
    assert |LStrip(value)| == |value|;
    assert LStrip(value) == value;
    assert value[..|value|] == value;
  }

  lemma OnlyCleanStays(value: string, r: string)
    requires r <= value && ParseValue(r) == value && OneLine(value)
    ensures Clean(value)
  {
    CleanIff(value);
    hide Space, FindComment, LStrip, RStrip, OneLine, Clean;
    var cut := r[..FindComment(r)];
    assert |Strip(cut)| <= |cut| <= |r| <= |value|;
    assert r == value;
    assert cut == value;
  }

  lemma NewlineIgnored(l: string)
    ensures ParseLine(l + "\n") == ParseLine(l)
  {
    SpaceFacts();
    hide Space;
    LStripBefore(l, "\n");
    assert LStrip("\n") == "" by { assert "\n"[1..] == ""; }
    NewlineStrips(LStrip(l));
    assert Strip(l + "\n") == Strip(l);
    hide *;
    SameStripped(l + "\n", l);
  }

  lemma SameStripped(a: string, b: string)
    requires Strip(a) == Strip(b)
    ensures ParseLine(a) == ParseLine(b)
  {
    hide Strip, ParseValue;
  }

  lemma WithinStrip(l: string)
    ensures forall j :: 0 <= j < |Strip(l)| ==> Strip(l)[j] in l
    ensures Line(l) ==> Unbroken(Strip(l))
  {
    SpaceFacts();
    hide Space, LStrip, RStrip;
    var a, s := LStrip(l), Strip(l);
    var from := |l| - |a|;
    assert s == l[from..from + |s|];
    forall j | 0 <= j < |s| ensures s[j] == l[from + j] && s[j] in l {}
    if Line(l) && s != "" {
      assert s[|s| - 1] != '\n';
    }
  }

  lemma ValueIsOneLine(l: string)
    requires Line(l) && ParseLine(l).Some?
    ensures Unbroken(ParseLine(l).value.1)
  {
    WithinStrip(l);
    var s := Strip(l);
    hide Strip, Space;
    hide Find;
    var rest := s[Find(s, '=') + 1..];
    assert ParseLine(l).value.1 == ParseValue(rest);
    ValueWithin(rest);
    hide ParseValue;
    forall j | 0 <= j < |ParseValue(rest)| ensures ParseValue(rest)[j] != '\n' && ParseValue(rest)[j] != '\r' {
      assert ParseValue(rest)[j] in rest;
    }
  }

  lemma ValueWithin(rest: string)
    ensures forall c :: c in ParseValue(rest) ==> c in rest
  {
    var cut := rest[..FindComment(rest)];
    WithinStrip(cut);
    hide Strip, FindComment, Quoted, Line, Unbroken;
    var v, r := Strip(cut), ParseValue(rest);
    forall c | c in r ensures c in rest {
      var j :| 0 <= j < |r| && r[j] == c;
      assert r[j] == if Quoted(v) then v[j + 1] else v[j];
      assert c in cut;
    }
  }

  // ----- What any line says ----------------------------------------------------------------------

  predicate Comment(s: string) { s == "" || (|s| >= 2 && s[0] == ' ' && s[1] == '#') }

  /** A value is what is left without the blanks around it, without a comment that a space
      comes before, and without one pair of quotes. */
  lemma ValueOf(a: string, v: string, b: string, comment: string)
    requires Blank(a) && Trimmed(v) && Blank(b) && NoComment(a + v + b) && Comment(comment)
    ensures ParseValue(a + v + b + comment) ==
      if |v| >= 2 && v[0] == v[|v| - 1] && (v[0] == '"' || v[0] == '\'') then v[1..|v| - 1] else v
  {
    hide Space, Strip, FindComment, Blank, NoComment;
    StripIs(a, v, b);
    CommentAt(a + v + b, comment);
    assert (a + v + b + comment)[..|a + v + b|] == a + v + b;
  }

  lemma {:induction false} CommentAt(x: string, comment: string)
    requires NoComment(x) && Comment(comment)
    ensures FindComment(x + comment) == |x|
  {
    if x == "" {
      assert x + comment == comment;
    } else {
      assert NoComment(x[1..]);
      CommentAt(x[1..], comment);
      assert (x + comment)[1..] == x[1..] + comment;
      if |x| > 1 { assert (x + comment)[1] == x[1]; }
    }
  }

  /** Everything after an equals sign is of that form. */
  lemma SplitValue(rest: string) returns (a: string, v: string, b: string, comment: string)
    ensures rest == a + v + b + comment
    ensures Blank(a) && Trimmed(v) && Blank(b) && NoComment(a + v + b) && Comment(comment)
  {
    hide *;
    var n := FindComment(rest);
    CommentSplit(rest, n);
    comment := rest[n..];
    v := Strip(rest[..n]);
    a, b := SplitStripped(rest[..n]);
  }

  lemma CommentSplit(rest: string, n: nat)
    requires n == FindComment(rest)
    ensures n <= |rest| && rest == rest[..n] + rest[n..] && Comment(rest[n..]) && NoComment(rest[..n])
  {
    hide FindComment;
  }

  /** Blanks at the end of the line are no part of it. */
  lemma TrailingBlanks(rest: string)
    ensures ParseValue(RStrip(rest)) == ParseValue(rest)
  {
    hide *;
    var a, v, b, comment := SplitValue(rest);
    ValueOf(a, v, b, comment);
    if comment == "" {
      StrippedEnd(a, v, b);
      assert rest == a + v + b;
    } else {
      var more := CommentText(comment);
      StrippedComment(a + v + b, more);
      ValueOf(a, v, b, " #" + RStrip(more));
    }
  }

  lemma CommentText(comment: string) returns (more: string)
    requires Comment(comment) && comment != ""
    ensures comment == " #" + more && forall x: string :: Comment(" #" + x)
  {
    more := comment[2..];
  }

  lemma StrippedComment(x: string, more: string)
    ensures RStrip(x + (" #" + more)) == x + (" #" + RStrip(more))
  {
    assert !Space('#');
    hide Space, RStrip;
    assert x + (" #" + more) == x + " #" + more && x + (" #" + RStrip(more)) == x + " #" + RStrip(more);
    RStripAfter(x + " #", more);
  }

  lemma StrippedEnd(a: string, v: string, b: string)
    requires Blank(a) && Trimmed(v) && Blank(b) && NoComment(a + v + b)
    ensures ParseValue(RStrip(a + v + b)) ==
      if |v| >= 2 && v[0] == v[|v| - 1] && (v[0] == '"' || v[0] == '\'') then v[1..|v| - 1] else v
  {
    hide Space, RStrip, ParseValue, Quoted;
    assert Comment("") && Blank("") && NoComment("");
    if v == "" {
      assert a + v + b == "" + (a + b) && Blank(a + b);
      RStripIs("", a + b);
      assert "" + "" + "" + "" == "";
      ValueOf("", "", "", "");
    } else {
      RStripIs(a + v, b);
      assert a + v + "" + "" == a + v && a + v + "" == a + v;
      assert NoComment(a + v) by { PrefixNoComment(a + v, b); }
      ValueOf(a, v, "", "");
    }
  }

  lemma PrefixNoComment(x: string, y: string)
    requires NoComment(x + y)
    ensures NoComment(x)
  {
    forall j | 0 <= j < |x| - 1 ensures !(x[j] == ' ' && x[j + 1] == '#') {
      assert (x + y)[j] == x[j] && (x + y)[j + 1] == x[j + 1];
    }
  }

  /** A line with a name, an equals sign and anything after it sets that name. */
  lemma LineSets(a: string, name: string, b: string, rest: string)
    requires Blank(a) && Trimmed(name) && Blank(b) && '=' !in name
    requires if name == "" then b == "" else name[0] != '#'
    ensures ParseLine(a + name + b + "=" + rest) == Some((name, ParseValue(rest)))
  {
    var left, line := name + b, a + name + b + "=" + rest;
    NameAndBlanks(name, b);
    Bracketed(a, name, b, rest);
    hide *;
    TrailingBlanks(rest);
    StripIs("", name, b);
    LStripIs(a, left + "=" + rest);
    StripMatched(line, left, rest);
    ParseParts(line, left, RStrip(rest));
  }

  lemma Bracketed(a: string, name: string, b: string, rest: string)
    ensures a + name + b + "=" + rest == a + (name + b + "=" + rest)
    ensures "" + name + b == name + b && (name + b + "=" + rest)[0] == (name + b + "=")[0]
  {}

  lemma NameAndBlanks(name: string, b: string)
    requires Trimmed(name) && Blank(b) && '=' !in name && (name == "" ==> b == "")
    requires name != "" ==> name[0] != '#'
    ensures var left := name + b;
      '=' !in left && !Space((left + "=")[0]) && (left == "" || left[0] != '#') && Blank("")
  {
    SpaceFacts();
    hide Space;
    assert forall i :: 0 <= i < |b| ==> b[i] != '=';
  }

  /** Blank lines, comments and lines without an equals sign say nothing; all others set a
      name. */
  lemma SaysNothingIff(line: string)
    ensures ParseLine(line).None? <==>
      || '=' !in line
      || exists i :: 0 <= i < |line| && line[i] == '#' && forall j :: 0 <= j < i ==> Space(line[j])
  {
    hide *;
    ParseNone(line);
    var a, b := SplitStripped(line);
    var s := Strip(line);
    SignIn(a, s, b);
    FindAny(s);
    HashFirst(a, s, b);
  }

  lemma FindAny(s: string)
    ensures Find(s, '=') == |s| <==> '=' !in s
  {}

  lemma SignIn(a: string, s: string, b: string)
    requires Blank(a) && Blank(b)
    ensures '=' in a + s + b <==> '=' in s
  {
    SpaceFacts();
    hide Space;
    var x := a + s + b;
    if '=' in s { var i :| 0 <= i < |s| && s[i] == '='; assert x[|a| + i] == '='; }
    if '=' in x {
      var i :| 0 <= i < |x| && x[i] == '=';
      assert !Space(x[i]);
      assert |a| <= i < |a| + |s|;
      assert s[i - |a|] == '=';
    }
  }

  lemma HashFirst(a: string, s: string, b: string)
    requires Blank(a) && Trimmed(s) && Blank(b)
    ensures var x := a + s + b;
      s != "" && s[0] == '#' <==>
        exists i :: 0 <= i < |x| && x[i] == '#' && forall j :: 0 <= j < i ==> Space(x[j])
  {
    assert !Space('#');
    hide Space;
    var x := a + s + b;
    if s != "" && s[0] == '#' {
      assert x[|a|] == '#' && forall j :: 0 <= j < |a| ==> Space(x[j]);
    }
    if i :| 0 <= i < |x| && x[i] == '#' && forall j :: 0 <= j < i ==> Space(x[j]) {
      assert !Space(x[i]) && |a| <= i;
      assert i < |a| + |s|;
      assert x[|a|] == s[0] && !Space(x[|a|]);
      assert i == |a|;
    }
  }

  lemma ParseNone(line: string)
    ensures var s := Strip(line);
      ParseLine(line).None? <==> s == "" || s[0] == '#' || Find(s, '=') == |s|
    ensures Strip(line) == "" ==> '=' !in Strip(line)
  {
    hide Strip, ParseValue, Find;
  }

  /** The editor recognises a line of a key that has no or one space before "=", whatever
      blanks it starts with. */
  lemma MatchedIff(line: string, key: string)
    requires KeyName(key)
    ensures Matched(line, key) <==>
      exists n :: 0 <= n <= |line| && Blank(line[..n]) && (key + "=" <= line[n..] || key + " =" <= line[n..])
  {
    hide *;
    var a := LStripDrops(line);
    MatchedWhere(line, a, LStrip(line), key);
    forall n | 0 <= n <= |line| && Blank(line[..n]) && (key + "=" <= line[n..] || key + " =" <= line[n..])
      ensures Matched(line, key)
    {
      MatchedFrom(line, line[..n], line[n..], key);
    }
  }

  lemma MatchedFrom(line: string, a: string, s: string, key: string)
    requires KeyName(key) && line == a + s && Blank(a) && (key + "=" <= s || key + " =" <= s)
    ensures Matched(line, key)
  {
    assert key != "" && !Space(key[0]);
    hide *;
    StartsWith(s, key);
    LStripIs(a, s);
    MatchedWhere(line, a, s, key);
  }

  lemma StartsWith(s: string, key: string)
    requires key != "" && (key + "=" <= s || key + " =" <= s)
    ensures s != "" && key != "" && s[0] == key[0]
  {}

  lemma MatchedWhere(line: string, a: string, s: string, key: string)
    requires line == a + s && s == LStrip(line)
    ensures Matched(line, key) <==> key + "=" <= s || key + " =" <= s
    ensures |a| <= |line| && line[..|a|] == a && line[|a|..] == s
  {
    hide *;
    MatchedIs(line, key);
    Halves(a, s);
  }

  lemma MatchedIs(line: string, key: string)
    ensures Matched(line, key) <==> key + "=" <= LStrip(line) || key + " =" <= LStrip(line)
  {
    hide LStrip;
  }

  lemma Halves(a: string, s: string)
    ensures (a + s)[..|a|] == a && (a + s)[|a|..] == s
  {}

  // ----- Lines of an edited file ---------------------------------------------------------------

  lemma EndedWellFormed(ls: seq<string>)
    requires WellFormed(ls)
    ensures WellFormed(Ended(ls)) && forall i :: 0 <= i < |Ended(ls)| ==> Terminates(Ended(ls)[i])
  {
    if ls != [] && !Terminates(ls[|ls| - 1]) {
      EndedLine(ls[|ls| - 1]);
    }
    hide Line, Terminates;
  }

  lemma EndedLine(l: string)
    requires Line(l) && !Terminates(l)
    ensures Line(l + "\n") && Terminates(l + "\n")
  {}

  lemma PutCases(ls: seq<string>, key: string, value: string)
    ensures PutLines(ls, key, value) ==
      if AnyMatch(ls, key) then Replaced(ls, key, value) else Ended(ls) + [Entry(key, value)]
  {
    hide AnyMatch, Ended, Entry;
  }

  /** The lines that an entry turns into. */
  function EntryLines(key: string, value: string): seq<string> {
    [Entry(key, Head(value))] + Continuations(value)
  }

  lemma HeadCut(value: string, t: string, i: nat)
    requires t == Translate(value + "\n") && i == Find(t, '\n')
    ensures i < |t| && t[i] == '\n' && Head(value) == t[..i] && Continuations(value) == Lines(t[i + 1..])
  {
    Last(t);
    hide Translate, Find, Lines;
  }

  lemma EntryReads(key: string, value: string)
    requires KeyName(key)
    ensures ReadLines(Entry(key, value)) == EntryLines(key, value)
  {
    hide *;
    var t := Translate(value + "\n");
    var a, i := key + "=", Find(t, '\n');
    PlainName(key);
    HeadCut(value, t, i);
    TranslateAppend(a, value + "\n");
    TranslateSame(a);
    FindBeyond(a, t, '\n');
    EntrySplits(a, t, i);
    assert |a + t| == |a| + |t|;
    UnfoldLines(a + t);
    EntryText(key, value);
    EntryText(key, Head(value));
    ReadIs(Entry(key, value));
    CutAt(a + t, |a| + i);
    EntryLinesAre(key, value);
  }

  lemma CutAt(s: string, i: nat)
    requires i == Find(s, '\n') < |s|
    ensures Cut(s) == i + 1
  {}

  lemma EntryText(key: string, value: string)
    ensures Entry(key, value) == key + "=" + (value + "\n") == key + "=" + value + "\n"
  {}

  lemma EntryLinesAre(key: string, value: string)
    ensures EntryLines(key, value) == [Entry(key, Head(value))] + Continuations(value)
  {}

  lemma EntrySplits(a: string, t: string, i: nat)
    requires i < |t| && t[i] == '\n'
    ensures (a + t)[..|a| + i + 1] == a + t[..i] + "\n"
    ensures (a + t)[|a| + i + 1..] == t[i + 1..]
  {}

  lemma PlainName(key: string)
    requires KeyName(key)
    ensures '\n' !in key + "=" && '\r' !in key + "="
  {
    SpaceFacts();
    hide Space;
  }

  /** Position of the first character that ends a line, or the length. */
  function FirstBreak(s: string): (i: nat)
    ensures i <= |s| && (i < |s| ==> s[i] == '\n' || s[i] == '\r')
    ensures Unbroken(s[..i])
  {
    if s == "" || s[0] == '\n' || s[0] == '\r' then 0
    else
      var i := FirstBreak(s[1..]);
      assert s[..1 + i] == [s[0]] + s[1..][..i];
      1 + i
  }

  /** The head of a value reaches to its first line end; the rest are further lines. */
  lemma HeadAndRest(value: string)
    ensures var i := FirstBreak(value);
      var rest := Translate(value[i..] + "\n");
      rest != "" && Head(value) == value[..i] && Continuations(value) == Lines(rest[1..])
  {
    hide *;
    var i := FirstBreak(value);
    var a, rest := value[..i], Translate(value[i..] + "\n");
    TranslateFrom(value);
    Plain(a);
    BreakReads(value[i..] + "\n");
    FindBeyond(a, rest, '\n');
    FindFirst(rest);
    HeadCut(value, a + rest, i);
    assert (a + rest)[..i] == a && (a + rest)[i + 1..] == rest[1..];
  }

  lemma TranslateFrom(value: string)
    ensures var i := FirstBreak(value);
      Translate(value + "\n") == value[..i] + Translate(value[i..] + "\n")
  {
    hide *;
    var i := FirstBreak(value);
    Plain(value[..i]);
    assert value + "\n" == value[..i] + (value[i..] + "\n");
    TranslateAppend(value[..i], value[i..] + "\n");
    TranslateSame(value[..i]);
  }

  lemma Plain(a: string)
    requires Unbroken(a)
    ensures '\n' !in a && '\r' !in a
  {}

  lemma BreakReads(b: string)
    requires b != "" && (b[0] == '\n' || b[0] == '\r')
    ensures Translate(b) != "" && Translate(b)[0] == '\n'
  {}

  lemma FindFirst(s: string)
    requires s != "" && s[0] == '\n'
    ensures Find(s, '\n') == 0
  {}

  /** A value adds no line exactly if it is one line. */
  lemma OneLineReads(value: string)
    ensures OneLine(value) <==> Continuations(value) == []
    ensures OneLine(value) ==> RStrip(Head(value)) == RStrip(value)
  {
    HeadAndRest(value);
    var i := FirstBreak(value);
    var b := value[i..] + "\n";
    hide Head, Continuations;
    RestEmpty(b);
    assert OneLine(value) <==> (b == "\n" || b == "\r\n") by { OneLineBreak(value, i); }
    if b == "\n" {
      assert value[..i] == value;
    } else if b == "\r\n" {
      assert b[..1] == value[i..] && value == value[..i] + "\r";
      SpaceFacts();
      assert value[..|value| - 1] == value[..i];
    }
  }

  lemma OneLineBreak(value: string, i: nat)
    requires i == FirstBreak(value)
    ensures OneLine(value) <==> (value[i..] + "\n" == "\n" || value[i..] + "\n" == "\r\n")
  {
    var b := value[i..] + "\n";
    assert forall j :: 0 <= j < i ==> value[j] == value[..i][j];
    hide FirstBreak;
    if i == |value| {
      assert b == "\n";
    } else if i == |value| - 1 && value[i] == '\r' {
      assert b == "\r\n";
    } else {
      assert |b| != 1 && (|b| == 2 ==> b[0] != '\r');
    }
  }

  lemma RestEmpty(b: string)
    requires b != "" && (b[0] == '\n' || b[0] == '\r') && b[|b| - 1] == '\n'
    ensures Translate(b) != "" && (Lines(Translate(b)[1..]) == [] <==> b == "\n" || b == "\r\n")
  {
    hide *;
    var rest := AfterBreak(b);
    NoLinesIff(Translate(rest));
  }

  lemma AfterBreak(b: string) returns (rest: string)
    requires b != "" && (b[0] == '\n' || b[0] == '\r') && b[|b| - 1] == '\n'
    ensures Translate(b) != "" && Translate(b)[1..] == Translate(rest)
    ensures Translate(rest) == "" <==> b == "\n" || b == "\r\n"
  {
    hide Translate;
    if b[0] == '\n' {
      rest := b[1..];
      assert b == [b[0]] + rest;
      TranslateUnits('\n', rest);
      assert rest == "" <==> b == "\n";
    } else if b[1] == '\n' {
      rest := b[2..];
      assert b == "\r\n" + rest;
      TranslateUnits('\n', rest);
      assert rest == "" <==> b == "\r\n";
    } else {
      rest := b[1..];
      assert b == "\r" + rest;
      TranslateUnits('\n', rest);
      assert rest != "";
    }
  }

  lemma NoLinesIff(s: string)
    ensures Lines(s) == [] <==> s == ""
  {
    hide Cut;
  }

  /** The lines after the edit, with every entry as the lines that it turns into. */
  function Expanded(ls: seq<string>, key: string, value: string): seq<string> {
    if ls == [] then []
    else Expanded(ls[..|ls| - 1], key, value)
         + if Matched(ls[|ls| - 1], key) then EntryLines(key, value) else [ls[|ls| - 1]]
  }

  function PutRead(ls: seq<string>, key: string, value: string): seq<string> {
    if AnyMatch(ls, key) then Expanded(ls, key, value) else Ended(ls) + EntryLines(key, value)
  }

  lemma EntryTerminates(key: string, value: string)
    ensures Terminates(Entry(key, value))
  {}

  lemma {:induction false} ExpandedReads(ls: seq<string>, key: string, value: string)
    requires KeyName(key) && WellFormed(ls)
    ensures ReadLines(Join(Replaced(ls, key, value))) == Expanded(ls, key, value)
    ensures (forall i :: 0 <= i < |ls| ==> Terminates(ls[i])) ==>
      Join(Replaced(ls, key, value)) == "" || Terminates(Join(Replaced(ls, key, value)))
  {
    hide Line, Terminates, Matched, Entry, EntryLines, ReadLines, Join, KeyName;
    NothingRead();
    if ls != [] {
      var front, l := ls[..|ls| - 1], ls[|ls| - 1];
      ExpandedReads(front, key, value);
      var e := if Matched(l, key) then Entry(key, value) else l;
      assert Replaced(ls, key, value) == Replaced(front, key, value) + [e];
      JoinLast(Replaced(front, key, value), e);
      ReadAppend(Join(Replaced(front, key, value)), e);
      EntryReads(key, value);
      EntryTerminates(key, value);
      LineReads(l);
      LastTerminates(Join(Replaced(front, key, value)), e);
    }
  }

  lemma NothingRead()
    ensures ReadLines("") == [] && Join([]) == ""
  {}

  lemma LastTerminates(a: string, b: string)
    ensures Terminates(b) ==> Terminates(a + b)
  {}

  lemma WellFormedOne(l: string)
    requires Line(l)
    ensures WellFormed([l])
  {
    hide Line;
  }

  lemma LineReads(l: string)
    requires Line(l)
    ensures ReadLines(l) == [l]
  {
    WellFormedOne(l);
    hide Line, WellFormed;
    ReadJoin([l]);
    assert Join([l]) == l + Join([]) == l;
    hide ReadLines;
  }

  /** Reading the file back yields the edited lines. */
  lemma PutReadsBack(text: string, key: string, value: string)
    requires KeyName(key)
    ensures ReadLines(Put(text, key, value)) == PutRead(ReadLines(text), key, value)
  {
    var ls := ReadLines(text);
    ReadWellFormed(text);
    ExpandedReads(ls, key, value);
    EndedWellFormed(ls);
    EntryReads(key, value);
    hide ReadLines, Expanded, Ended, EntryLines, Entry, Join, KeyName, AnyMatch, WellFormed;
    if !AnyMatch(ls, key) {
      ReadJoin(Ended(ls));
      JoinLast(Ended(ls), Entry(key, value));
      EndedJoins(ls);
      ReadAppend(Join(Ended(ls)), Entry(key, value));
    }
  }

  lemma EndedJoins(ls: seq<string>)
    requires WellFormed(ls)
    ensures Join(Ended(ls)) == "" || Terminates(Join(Ended(ls)))
  {
    EndedWellFormed(ls);
    var e := Ended(ls);
    hide Ended, WellFormed;
    if e != [] {
      assert e == e[..|e| - 1] + [e[|e| - 1]];
      JoinLast(e[..|e| - 1], e[|e| - 1]);
    }
  }

  lemma {:induction false} KeptWellFormed(ls: seq<string>, key: string)
    requires WellFormed(ls)
    ensures WellFormed(Kept(ls, key))
    ensures (forall i :: 0 <= i < |ls| ==> Terminates(ls[i])) ==>
      forall i :: 0 <= i < |Kept(ls, key)| ==> Terminates(Kept(ls, key)[i])
  {
    hide Matched;
    if ls != [] {
      KeptWellFormed(ls[..|ls| - 1], key);
    }
  }

  lemma ClearReadsBack(text: string, key: string)
    ensures ReadLines(Clear(text, key)) == Kept(ReadLines(text), key)
  {
    ReadWellFormed(text);
    KeptWellFormed(ReadLines(text), key);
    ReadJoin(Kept(ReadLines(text), key));
  }

  /** A key that no line sets is added in a line of its own, at the end. */
  lemma PutAppends(text: string, key: string, value: string)
    requires forall l :: l in ReadLines(text) ==> !Matched(l, key)
    ensures var t := Translate(text);
      Put(text, key, value) == t + (if t == "" || t[|t| - 1] == '\n' then "" else "\n") + key + "=" + value + "\n"
  {
    hide *;
    var t := Translate(text);
    ReadIs(text);
    var ls := Lines(t);
    Unmatched(ls, key);
    PutCases(ls, key, value);
    PutIs(text, key, value);
    JoinLast(Ended(ls), Entry(key, value));
    EntryText(key, value);
    JoinLines(t);
    var sep := if t == "" || t[|t| - 1] == '\n' then "" else "\n";
    LinesNotEmpty(t);
    EndedText(ls);
    assert t + sep + key + "=" + value + "\n" == t + sep + (key + "=" + value + "\n");
  }

  lemma Unmatched(ls: seq<string>, key: string)
    requires forall l :: l in ls ==> !Matched(l, key)
    ensures !AnyMatch(ls, key)
  {
    hide Matched;
  }

  lemma PutIs(text: string, key: string, value: string)
    ensures Put(text, key, value) == Join(PutLines(ReadLines(text), key, value))
  {
    hide Join, PutLines, ReadLines;
  }

  lemma LinesNotEmpty(t: string)
    requires '\r' !in t
    ensures forall l :: l in Lines(t) ==> l != ""
  {
    LinesWellFormed(t);
    hide Lines;
  }

  lemma EndedText(ls: seq<string>)
    requires forall l :: l in ls ==> l != ""
    ensures var t := Join(ls);
      Join(Ended(ls)) == t + if t == "" || t[|t| - 1] == '\n' then "" else "\n"
  {
    hide Join;
    if ls == [] {
      NothingRead();
    } else {
      var front, l := ls[..|ls| - 1], ls[|ls| - 1];
      assert ls == front + [l] && l in ls;
      JoinLast(front, l);
      JoinLast(front, l + "\n");
      hide *;
      LastLine(Join(front), l);
      EndedLast(front, l);
    }
  }

  lemma LastLine(a: string, l: string)
    requires l != ""
    ensures a + l != "" && (a + l)[|a + l| - 1] == l[|l| - 1]
    ensures a + (l + "\n") == a + l + "\n" && a + l + "" == a + l
  {}

  lemma EndedLast(front: seq<string>, l: string)
    requires l != ""
    ensures Ended(front + [l]) == front + [if l[|l| - 1] == '\n' then l else l + "\n"]
  {
    assert (front + [l])[..|front|] == front;
  }

  /** A key that one line sets has that line replaced, and the rest of the file stays. */
  lemma PutReplaces(before: string, l: string, after: string, key: string, value: string)
    requires '\r' !in before && '\r' !in after && (before == "" || Terminates(before)) && Line(l) && Terminates(l)
    requires Matched(l, key) && !AnyMatch(Lines(before), key) && !AnyMatch(Lines(after), key)
    ensures Put(before + l + after, key, value) == before + key + "=" + value + "\n" + after
  {
    hide *;
    var a, b := Lines(before), Lines(after);
    ThreeReads(before, l, after);
    PutIs(before + l + after, key, value);
    PutCases(a + [l] + b, key, value);
    OneReplaced(l, key, value);
    AnyMatchAppend(a, [l], key);
    AnyMatchAppend(a + [l], b, key);
    ReplacedAppend(a, [l], key, value);
    ReplacedAppend(a + [l], b, key, value);
    ReplacedNone(a, key, value);
    ReplacedNone(b, key, value);
    JoinAppend(a, Replaced([l], key, value));
    JoinAppend(a + Replaced([l], key, value), b);
    JoinLines(before);
    JoinLines(after);
    EntryText(key, value);
    Regrouped(before, key, value, after);
  }

  lemma Regrouped(a: string, key: string, value: string, b: string)
    ensures a + (key + "=" + value + "\n") + b == a + key + "=" + value + "\n" + b
  {}

  lemma ThreeReads(before: string, l: string, after: string)
    requires '\r' !in before && '\r' !in after && (before == "" || Terminates(before)) && Line(l) && Terminates(l)
    ensures ReadLines(before + l + after) == Lines(before) + [l] + Lines(after)
  {
    hide *;
    LastTerminates(before, l);
    ReadAppend(before + l, after);
    ReadAppend(before, l);
    LineReads(l);
    TranslateSame(before);
    TranslateSame(after);
    ReadIs(before);
    ReadIs(after);
  }

  // ----- What the edited lines parse to ---------------------------------------------------------

  function Value(ls: seq<string>, key: string): Option<string> { Lookup(Parsed(ls), key) }

  /** What the last line says, if it says anything of the key. */
  lemma ValueLast(ls: seq<string>, l: string, key: string)
    ensures Value(ls + [l], key) ==
      if ParseLine(l).Some? && ParseLine(l).value.0 == key then Some(ParseLine(l).value.1) else Value(ls, key)
  {
    hide ParseLine;
    assert (ls + [l])[..|ls|] == ls;
  }

  /** Further lines count where they say anything of the key. */
  lemma {:induction false} ValueAppend(ls: seq<string>, more: seq<string>, key: string)
    ensures Value(ls + more, key) == if Value(more, key).Some? then Value(more, key) else Value(ls, key)
  {
    hide ParseLine, Value;
    ValueNone(key);
    if more == [] {
      assert ls + more == ls;
    } else {
      var front, l := more[..|more| - 1], more[|more| - 1];
      assert more == front + [l] && ls + more == ls + front + [l];
      ValueAppend(ls, front, key);
      ValueLast(front, l, key);
      ValueLast(ls + front, l, key);
    }
  }

  /** What the lines of an entry say, if its further lines do not speak of k. */
  lemma ValueEntry(key: string, value: string, k: string)
    requires KeyName(key) && Value(Continuations(value), k) == None
    ensures Value(EntryLines(key, value), k) == if k == key then Some(ParseValue(RStrip(Head(value)))) else None
  {
    hide ParseLine, Value, ParseValue, Entry, KeyName, Head, Continuations;
    EntryParses(key, Head(value));
    ValueNone(k);
    assert [] + [Entry(key, Head(value))] == [Entry(key, Head(value))];
    ValueLast([], Entry(key, Head(value)), k);
    ValueAppend([Entry(key, Head(value))], Continuations(value), k);
  }

  lemma {:induction false} ValueExpanded(ls: seq<string>, key: string, value: string, k: string)
    requires KeyName(key) && Value(Continuations(value), k) == None
    ensures Value(Expanded(ls, key, value), k) ==
      if k != key then Value(ls, k)
      else if StrayValue(ls, key).Some? then StrayValue(ls, key)
      else if AnyMatch(ls, key) then Some(ParseValue(RStrip(Head(value)))) else None
  {
    hide ParseLine, KeyName, Matched, ParseValue, EntryLines, Value, Head, Continuations;
    if ls == [] {
      ValueNone(k);
    } else {
      var front, l := ls[..|ls| - 1], ls[|ls| - 1];
      assert ls == front + [l];
      ValueExpanded(front, key, value, k);
      ValueLast(front, l, k);
      ValueEntry(key, value, k);
      if Matched(l, key) { MatchedSetsKey(l, key); }
      ValueAppend(Expanded(front, key, value), EntryLines(key, value), k);
      ValueLast(Expanded(front, key, value), l, k);
    }
  }

  lemma ValueNone(key: string)
    ensures Value([], key) == None
  {}

  lemma ValueEnded(ls: seq<string>, key: string)
    ensures Value(Ended(ls), key) == Value(ls, key)
  {
    hide ParseLine, Value;
    if ls != [] && !Terminates(ls[|ls| - 1]) {
      var front, l := ls[..|ls| - 1], ls[|ls| - 1];
      assert ls == front + [l];
      NewlineIgnored(l);
      ValueLast(front, l, key);
      ValueLast(front, l + "\n", key);
    }
  }

  lemma ValuePut(ls: seq<string>, key: string, value: string, k: string)
    requires KeyName(key) && Value(Continuations(value), k) == None
    ensures Value(PutRead(ls, key, value), k) ==
      if k != key then Value(ls, k)
      else if AnyMatch(ls, key) && StrayValue(ls, key).Some? then StrayValue(ls, key)
      else Some(ParseValue(RStrip(Head(value))))
  {
    hide ParseLine, KeyName, Matched, ParseValue, Value, Ended, EntryLines, Head, Continuations;
    ValueExpanded(ls, key, value, k);
    ValueEnded(ls, k);
    ValueEntry(key, value, k);
    ValueAppend(Ended(ls), EntryLines(key, value), k);
  }

  lemma {:induction false} ValueKept(ls: seq<string>, key: string, k: string)
    requires KeyName(key)
    ensures k != key ==> Value(Kept(ls, key), k) == Value(ls, k)
    ensures Value(Kept(ls, key), key) == None <==> NoStray(ls, key)
  {
    hide ParseLine, KeyName, Matched, Value;
    ValueNone(k);
    ValueNone(key);
    if ls != [] {
      var front, l := ls[..|ls| - 1], ls[|ls| - 1];
      assert ls == front + [l];
      ValueKept(front, key, k);
      ValueLast(front, l, k);
      ValueLast(Kept(front, key), l, k);
      ValueLast(Kept(front, key), l, key);
      assert Kept(front, key) + [] == Kept(front, key);
      if Matched(l, key) { MatchedSetsKey(l, key); }
    }
  }

  // ----- The laws -----------------------------------------------------------------------------------

  predicate Sticks(text: string, key: string, value: string) {
    var stray := StrayValue(ReadLines(text), key);
    && OneLine(value)
    && if AnyMatch(ReadLines(text), key) && stray.Some? then stray.value == value else Clean(value)
  }

  /** Put then get returns the value exactly if it is one line and either clean or, when a
      stray line follows the last recognised one, already what that line says. */
  lemma PutGet(text: string, key: string, value: string)
    requires KeyName(key)
    ensures Get(Put(text, key, value), key) == Some(value) <==> Sticks(text, key, value)
  {
    var t := Put(text, key, value);
    OneLineReads(value);
    GetIsValue(t, key);
    if OneLine(value) {
      ValueNone(key);
      PutReadsBack(text, key, value);
      ValuePut(ReadLines(text), key, value, key);
      CleanComesBack(value);
      hide Put, ReadLines, Value, Get, KeyName, AnyMatch, StrayValue, Clean, ParseValue, RStrip, Head;
    } else {
      ReadWellFormed(t);
      ValuesAreOneLine(ReadLines(t), key);
    }
  }

  lemma {:induction false} ValuesAreOneLine(ls: seq<string>, key: string)
    requires WellFormed(ls)
    ensures Value(ls, key).Some? ==> Unbroken(Value(ls, key).value)
  {
    hide ParseLine, Unbroken, Value;
    ValueNone(key);
    if ls != [] {
      var front, l := ls[..|ls| - 1], ls[|ls| - 1];
      assert ls == front + [l];
      ValuesAreOneLine(front, key);
      ValueLast(front, l, key);
      if ParseLine(l).Some? { ValueIsOneLine(l); }
    }
  }

  /** The lines that a value adds after its first do not set k. */
  predicate SilentOn(value: string, k: string) { Value(Continuations(value), k) == None }

  /** Another key keeps its value in every file exactly if the written value adds no line
      that sets it; so all do for values of one line. */
  lemma PutOther(key: string, value: string, k: string)
    requires KeyName(key) && k != key
    ensures (forall text :: Get(Put(text, key, value), k) == Get(text, k)) <==> SilentOn(value, k)
    ensures OneLine(value) ==> SilentOn(value, k)
  {
    OneLineReads(value);
    ValueNone(k);
    if SilentOn(value, k) {
      forall text ensures Get(Put(text, key, value), k) == Get(text, k) {
        PutOtherHere(text, key, value, k);
      }
    } else {
      PutIntoNothing(key, value, k);
    }
  }

  lemma PutOtherHere(text: string, key: string, value: string, k: string)
    requires KeyName(key) && k != key && SilentOn(value, k)
    ensures Get(Put(text, key, value), k) == Get(text, k)
  {
    hide Put, ReadLines, Value, Get, KeyName, PutRead, Continuations;
    PutReadsBack(text, key, value);
    ValuePut(ReadLines(text), key, value, k);
    GetIsValue(text, k);
    GetIsValue(Put(text, key, value), k);
  }

  /** Into an empty file: the further lines of a value come to count. */
  lemma PutIntoNothing(key: string, value: string, k: string)
    requires KeyName(key) && k != key && !SilentOn(value, k)
    ensures Get("", k) == None && Get(Put("", key, value), k) == Value(Continuations(value), k)
  {
    PutReadsBack("", key, value);
    NothingRead();
    ValueNone(k);
    GetIsValue("", k);
    GetIsValue(Put("", key, value), k);
    assert Ended([]) + EntryLines(key, value) == EntryLines(key, value);
    hide Put, ReadLines, Value, Get, KeyName, Continuations;
    ValueAppend([Entry(key, Head(value))], Continuations(value), k);
  }

  /** A carriage return in a value is enough: what follows it is read as a line, and may
      set another key. */
  lemma CarriageReturnSetsAnother(key: string, a: string, k: string, b: string)
    requires KeyName(key) && KeyName(k) && k != key && Unbroken(a) && Clean(b)
    ensures var value := a + ("\r" + k + "=" + b);
      Get("", k) == None && Get(Put("", key, value), k) == Some(b)
  {
    hide *;
    BrokenOff(a, k, b);
    EntryParses(k, b);
    CleanStays(b);
    ValueNone(k);
    assert [] + [Entry(k, b)] == [Entry(k, b)];
    ValueLast([], Entry(k, b), k);
    NotSilent(a + ("\r" + k + "=" + b), k);
    PutIntoNothing(key, a + ("\r" + k + "=" + b), k);
  }

  lemma NotSilent(value: string, k: string)
    ensures SilentOn(value, k) <==> Value(Continuations(value), k) == None
  {
    hide Value, Continuations;
  }

  lemma BrokenOff(a: string, k: string, b: string)
    requires KeyName(k) && Unbroken(a) && Clean(b)
    ensures Continuations(a + ("\r" + k + "=" + b)) == [Entry(k, b)]
  {
    var value, tail := a + ("\r" + k + "=" + b), "\r" + k + "=" + b;
    CleanUnbroken(b);
    PlainName(k);
    hide *;
    HeadAndRest(value);
    BreakAt(a, tail);
    assert value[|a|..] == tail;
    ReturnThenName(k, b);
    EntryIsLine(k, b);
    LineReads(Entry(k, b));
    ReadIs(Entry(k, b));
  }

  lemma ReadIs(raw: string)
    ensures ReadLines(raw) == Lines(Translate(raw))
  {
    hide Lines, Translate;
  }

  lemma ReturnThenName(k: string, b: string)
    requires '\n' !in k + "="
    ensures Translate("\r" + k + "=" + b + "\n") == "\n" + Translate(Entry(k, b))
  {
    var rest := "\r" + k + "=" + b + "\n";
    assert rest[1] == (k + "=")[0];
    assert rest[1..] == Entry(k, b);
  }

  lemma {:induction false} BreakAt(a: string, rest: string)
    requires Unbroken(a) && rest != "" && rest[0] == '\r'
    ensures FirstBreak(a + rest) == |a|
  {
    if a == "" {
      assert a + rest == rest;
    } else {
      assert (a + rest)[1..] == a[1..] + rest;
      BreakAt(a[1..], rest);
    }
  }

  lemma CleanUnbroken(b: string)
    requires Clean(b)
    ensures Unbroken(b)
  {
    SpaceFacts();
    hide Space;
  }

  /** Writing twice is writing the last, to the character, exactly if the first value was
      one line; otherwise the lines that it added are still there. */
  lemma PutPut(text: string, key: string, first: string, second: string)
    requires KeyName(key)
    ensures Put(Put(text, key, first), key, second) == Put(text, key, second) <==> OneLine(first)
  {
    var ls := ReadLines(text);
    PutReadsBack(text, key, first);
    OneLineReads(first);
    PutAgain(ls, key, first, second);
    hide ReadLines, PutLines, PutRead, KeyName, Continuations;
  }

  /** What a second write makes of the lines of the first. */
  lemma PutAgain(ls: seq<string>, key: string, first: string, second: string)
    requires KeyName(key)
    ensures var again, once := Join(PutLines(PutRead(ls, key, first), key, second)), Join(PutLines(ls, key, second));
      if Continuations(first) == [] then again == once else |again| > |once|
  {
    hide *;
    EntryParses(key, Head(first));
    NotEmptyEntry(key, second);
    EntryAgain(key, first, second);
    PutCases(ls, key, second);
    PutCases(PutRead(ls, key, first), key, second);
    PutReadCases(ls, key, first);
    if AnyMatch(ls, key) {
      ReplacedAgain(ls, key, first, second);
    } else {
      NotMatchedEnded(ls, key);
      var e := Ended(ls);
      AnyMatchAppend(e, EntryLines(key, first), key);
      ReplacedAppend(e, EntryLines(key, first), key, second);
      ReplacedNone(e, key, second);
      JoinAppend(e, Replaced(EntryLines(key, first), key, second));
      JoinLast(e, Entry(key, second));
    }
  }

  lemma PutReadCases(ls: seq<string>, key: string, value: string)
    ensures PutRead(ls, key, value) ==
      if AnyMatch(ls, key) then Expanded(ls, key, value) else Ended(ls) + EntryLines(key, value)
  {
    hide AnyMatch, Ended, Expanded, EntryLines;
  }

  lemma NotEmptyEntry(key: string, value: string)
    ensures Entry(key, value) != ""
  {}

  lemma ReplacedAppend(a: seq<string>, b: seq<string>, key: string, value: string)
    ensures Replaced(a + b, key, value) == Replaced(a, key, value) + Replaced(b, key, value)
  {
    hide Matched, Entry;
  }

  lemma ReplacedNone(ls: seq<string>, key: string, value: string)
    requires !AnyMatch(ls, key)
    ensures Replaced(ls, key, value) == ls
  {
    hide Matched, Entry;
  }

  lemma AnyMatchAppend(a: seq<string>, b: seq<string>, key: string)
    ensures AnyMatch(a + b, key) <==> AnyMatch(a, key) || AnyMatch(b, key)
  {
    hide Matched;
    if AnyMatch(a, key) {
      var i :| 0 <= i < |a| && Matched(a[i], key);
      assert Matched((a + b)[i], key);
    }
    if AnyMatch(b, key) {
      var i :| 0 <= i < |b| && Matched(b[i], key);
      assert Matched((a + b)[|a| + i], key);
    }
  }

  /** A second write over the lines of one entry. */
  lemma EntryAgain(key: string, first: string, second: string)
    requires Matched(Entry(key, Head(first)), key)
    ensures AnyMatch(EntryLines(key, first), key)
    ensures var again := Join(Replaced(EntryLines(key, first), key, second));
      if Continuations(first) == [] then again == Entry(key, second) else |again| > |Entry(key, second)|
  {
    ContinuationsNonEmpty(first);
    hide Matched, Entry, Head, Continuations;
    var ls := EntryLines(key, first);
    assert Matched(ls[0], key);
    var r := Replaced(ls, key, second);
    assert r[0] == Entry(key, second);
    assert Join(r) == r[0] + Join(r[1..]);
    if Continuations(first) != [] {
      NotEmptyEntry(key, second);
      assert r[1] != "" by { assert ls[1] == Continuations(first)[0] && ls[1] in Continuations(first); }
      assert Join(r[1..]) == r[1] + Join(r[1..][1..]);
    }
  }

  lemma ContinuationsNonEmpty(value: string)
    ensures forall l :: l in Continuations(value) ==> l != ""
  {
    var t := Translate(value + "\n");
    Last(t);
    LinesWellFormed(t[Find(t, '\n') + 1..]);
    hide Lines, Find, Translate;
  }

  lemma {:induction false} ReplacedAgain(ls: seq<string>, key: string, first: string, second: string)
    requires AnyMatch(EntryLines(key, first), key)
    requires var again := Join(Replaced(EntryLines(key, first), key, second));
      if Continuations(first) == [] then again == Entry(key, second) else |again| > |Entry(key, second)|
    ensures AnyMatch(Expanded(ls, key, first), key) <==> AnyMatch(ls, key)
    ensures var again, once := Join(Replaced(Expanded(ls, key, first), key, second)), Join(Replaced(ls, key, second));
      if Continuations(first) == [] || !AnyMatch(ls, key) then again == once else |again| > |once|
  {
    hide Matched, Entry, EntryLines, Continuations, Join, Replaced, AnyMatch;
    if ls == [] {
      NoneMatched(key);
    } else {
      var front, l := ls[..|ls| - 1], ls[|ls| - 1];
      assert ls == front + [l];
      ReplacedAgain(front, key, first, second);
      var xs := if Matched(l, key) then EntryLines(key, first) else [l];
      assert Expanded(ls, key, first) == Expanded(front, key, first) + xs;
      AnyMatchAppend(front, [l], key);
      AnyMatchAppend(Expanded(front, key, first), xs, key);
      ReplacedAppend(front, [l], key, second);
      ReplacedAppend(Expanded(front, key, first), xs, key, second);
      JoinAppend(Replaced(front, key, second), Replaced([l], key, second));
      JoinAppend(Replaced(Expanded(front, key, first), key, second), Replaced(xs, key, second));
      OneReplaced(l, key, second);
    }
  }

  lemma NoneMatched(key: string)
    ensures !AnyMatch([], key)
  {}

  lemma OneReplaced(l: string, key: string, value: string)
    ensures AnyMatch([l], key) <==> Matched(l, key)
    ensures Join(Replaced([l], key, value)) == if Matched(l, key) then Entry(key, value) else l
  {
    hide Matched, Entry;
    var r := Replaced([l], key, value);
    assert Join(r) == r[0] + Join(r[1..]);
    if Matched(l, key) { assert Matched([l][0], key); }
  }

  lemma NotMatchedEnded(ls: seq<string>, key: string)
    requires KeyName(key) && !AnyMatch(ls, key)
    ensures !AnyMatch(Ended(ls), key)
  {
    hide Matched, KeyName, Terminates;
    if ls != [] && !Terminates(ls[|ls| - 1]) {
      NotMatchedNewline(ls[|ls| - 1], key);
    }
  }

  lemma NotMatchedNewline(l: string, key: string)
    requires KeyName(key) && !Matched(l, key)
    ensures !Matched(l + "\n", key)
  {
    hide *;
    LStripBefore(l, "\n");
    NewlineIsBlank();
    MatchedIs(l, key);
    MatchedIs(l + "\n", key);
    EndsInEquals(key);
    PrefixBeforeNewline(key + "=", LStrip(l));
    PrefixBeforeNewline(key + " =", LStrip(l));
    assert !(key + "=" <= "") && !(key + " =" <= "");
  }

  lemma NewlineIsBlank()
    ensures LStrip("\n") == ""
  {
    assert "\n"[1..] == "";
  }

  lemma EndsInEquals(key: string)
    ensures var a, b := key + "=", key + " =";
      a != "" && b != "" && a[|a| - 1] == '=' && b[|b| - 1] == '='
  {}

  lemma PrefixBeforeNewline(p: string, x: string)
    requires p != "" && p[|p| - 1] != '\n'
    ensures p <= x + "\n" ==> p <= x
  {
    var y := x + "\n";
    assert y[|x|] == '\n';
    if p <= y {
      assert p[|p| - 1] == y[|p| - 1];
      assert y[..|x|] == x;
    }
  }

  /** Clearing leaves every other key alone and removes the key exactly if the file sets
      it in no spacing the editor does not recognise. */
  lemma ClearRemoves(text: string, key: string, k: string)
    requires KeyName(key)
    ensures k != key ==> Get(Clear(text, key), k) == Get(text, k)
    ensures Get(Clear(text, key), key) == None <==> NoStray(ReadLines(text), key)
  {
    ClearReadsBack(text, key);
    ValueKept(ReadLines(text), key, k);
  }

  /** Two or more spaces before "=" are enough: after a recognised line, such a line keeps
      its own value through every write of the key. */
  lemma StrayWins(key: string, gap: string, a: string, b: string, value: string)
    requires KeyName(key) && Spaces(gap) && |gap| >= 2 && Unbroken(a) && Clean(b) && OneLine(value)
    ensures Get(Put(Join([Entry(key, a), Entry(key + gap, b)]), key, value), key) == Some(b)
  {
    StrayLine(key, gap, b);
    EntryParses(key, a);
    EntryIsLine(key, a);
    var first, second := Entry(key, a), Entry(key + gap, b);
    var ls := [first, second];
    OneLineReads(value);
    ValueNone(key);
    hide *;
    TwoLines(first, second);
    ReadJoin(ls);
    PutReadsBack(Join(ls), key, value);
    ValuePut(ls, key, value, key);
    StrayAfter(first, second, key, b);
    GetIsValue(Put(Join(ls), key, value), key);
  }

  lemma GetIsValue(text: string, key: string)
    ensures Get(text, key) == Value(ReadLines(text), key)
  {
    hide ReadLines;
  }

  lemma TwoLines(first: string, second: string)
    requires Line(first) && Terminates(first) && Line(second)
    ensures WellFormed([first, second])
  {
    hide Line, Terminates;
  }

  lemma StrayAfter(first: string, second: string, key: string, b: string)
    requires Matched(first, key) && !Matched(second, key) && ParseLine(second) == Some((key, b))
    ensures AnyMatch([first, second], key) && StrayValue([first, second], key) == Some(b)
  {
    hide Matched, ParseLine;
    assert [first, second][0] == first;
  }

  lemma StrayLine(key: string, gap: string, b: string)
    requires KeyName(key) && Spaces(gap) && |gap| >= 2 && Clean(b)
    ensures ParseLine(Entry(key + gap, b)) == Some((key, b)) && !Matched(Entry(key + gap, b), key)
    ensures Line(Entry(key + gap, b))
  {
    assert !Space(key[0]) && OneLine(b);
    CleanUnbroken(b);
    SpacedIsLine(key, gap, b);
    CleanComesBack(b);
    NewlineStrips(b);
    hide *;
    SpacedStarts(key, gap, b);
    ParseMatched(Entry(key + gap, b), key, gap, b + "\n");
  }

  lemma SpacedStarts(key: string, gap: string, b: string)
    requires key != "" && !Space(key[0]) && Spaces(gap) && |gap| >= 2
    ensures var e := Entry(key + gap, b);
      LStrip(e) == e == key + gap + "=" + (b + "\n") && !Matched(e, key)
  {
    hide Space, LStrip;
    var e := Entry(key + gap, b);
    assert e == key + gap + "=" + (b + "\n");
    assert e[0] == key[0] && e[|key|] == gap[0] && e[|key| + 1] == gap[1];
    assert LStrip(e) == e;
  }

  lemma SpacedIsLine(key: string, gap: string, b: string)
    requires KeyName(key) && Spaces(gap) && Unbroken(b)
    ensures Line(Entry(key + gap, b))
  {
    SpaceFacts();
    hide Space;
    var e := Entry(key + gap, b);
    forall j | 0 <= j < |e| - 1 ensures e[j] != '\n' && e[j] != '\r' {
      assert e[j] == if j < |key| then key[j] else if j < |key| + |gap| then gap[j - |key|]
                     else if j == |key| + |gap| then '=' else b[j - |key| - |gap| - 1];
    }
  }

  // ----- The store and its cache ---------------------------------------------------------------

  lemma JoinEnded(ls: seq<string>, e: string)
    requires ls != [] && !Terminates(ls[|ls| - 1])
    ensures Join(ls + ["\n"] + [e]) == Join(Ended(ls) + [e])
  {
    hide Terminates, Join;
    var front, l := ls[..|ls| - 1], ls[|ls| - 1];
    assert ls + ["\n"] + [e] == front + [l, "\n", e];
    assert Ended(ls) + [e] == front + [l + "\n", e];
    JoinAppend(front, [l, "\n", e]);
    JoinAppend(front, [l + "\n", e]);
    JoinThree(l, "\n", e);
    JoinTwo(l + "\n", e);
  }

  lemma JoinThree(a: string, b: string, c: string)
    ensures Join([a, b, c]) == a + b + c
  {
    assert [a, b, c][1..] == [b, c];
    JoinTwo(b, c);
    assert a + (b + c) == a + b + c;
  }

  lemma JoinTwo(a: string, b: string)
    ensures Join([a, b]) == a + b
  {
    assert [a, b][1..] == [b];
    assert Join([b]) == b + Join([]);
  }

  lemma SyncAfterPut(text: string, cache: map<string, string>, key: string, value: string)
    requires KeyName(key)
    ensures cache == Parsed(ReadLines(text)) ==>
      (cache[key := value] == Parsed(ReadLines(Put(text, key, value))) <==> Sticks(text, key, value))
  {
    var m, n := Parsed(ReadLines(text)), Parsed(ReadLines(Put(text, key, value)));
    PutLookup(text, key, value, key);
    WithKey(m, key, value);
    var sticks := Sticks(text, key, value);
    hide Sticks, Put, ReadLines, Parsed, KeyName, Lookup;
    if sticks {
      forall k ensures Lookup(m[key := value], k) == Lookup(n, k) {
        PutLookup(text, key, value, k);
      }
      SameLookups(m[key := value], n);
    }
  }

  lemma WithKey(m: map<string, string>, key: string, value: string)
    ensures Lookup(m[key := value], key) == Some(value)
    ensures forall k :: k != key ==> Lookup(m[key := value], k) == Lookup(m, k)
  {}

  lemma PutLookup(text: string, key: string, value: string, k: string)
    requires KeyName(key)
    ensures var m, n := Parsed(ReadLines(text)), Parsed(ReadLines(Put(text, key, value)));
      && (Lookup(n, key) == Some(value) <==> Sticks(text, key, value))
      && (Sticks(text, key, value) && k != key ==> Lookup(n, k) == Lookup(m, k))
  {
    PutGet(text, key, value);
    SticksOneLine(text, key, value);
    hide Put, ReadLines, Parsed, KeyName, Sticks, Lookup, OneLine;
    if Sticks(text, key, value) && k != key { OneLineReads(value); ValueNone(k); PutOtherHere(text, key, value, k); }
  }

  lemma SticksOneLine(text: string, key: string, value: string)
    ensures Sticks(text, key, value) ==> OneLine(value)
  {
    hide ReadLines, AnyMatch, StrayValue, Clean, OneLine;
  }

  lemma SameLookups(m: map<string, string>, n: map<string, string>)
    ensures (forall k :: Lookup(m, k) == Lookup(n, k)) ==> m == n
  {
    if forall k :: Lookup(m, k) == Lookup(n, k) {
      assert forall k :: k in m ==> k in n && m[k] == n[k] by {
        forall k | k in m ensures k in n && m[k] == n[k] { assert Lookup(m, k) == Lookup(n, k); }
      }
      assert forall k :: k in n ==> k in m by {
        forall k | k in n ensures k in m { assert Lookup(m, k) == Lookup(n, k); }
      }
    }
  }

  lemma SyncAfterClear(text: string, cache: map<string, string>, key: string)
    requires KeyName(key)
    ensures cache == Parsed(ReadLines(text)) ==>
      (cache - {key} == Parsed(ReadLines(Clear(text, key))) <==> NoStray(ReadLines(text), key))
  {
    hide *;
    var m, n := Parsed(ReadLines(text)), Parsed(ReadLines(Clear(text, key)));
    ClearLookup(text, key, key);
    WithoutKey(m, key);
    if NoStray(ReadLines(text), key) {
      forall k ensures Lookup(m - {key}, k) == Lookup(n, k) {
        ClearLookup(text, key, k);
      }
      SameLookups(m - {key}, n);
    }
  }

  lemma WithoutKey(m: map<string, string>, key: string)
    ensures Lookup(m - {key}, key) == None && forall k :: k != key ==> Lookup(m - {key}, k) == Lookup(m, k)
  {}

  lemma ClearLookup(text: string, key: string, k: string)
    requires KeyName(key)
    ensures var m, n := Parsed(ReadLines(text)), Parsed(ReadLines(Clear(text, key)));
      && (k != key ==> Lookup(n, k) == Lookup(m, k))
      && (Lookup(n, key) == None <==> NoStray(ReadLines(text), key))
  {
    ClearRemoves(text, key, k);
    hide Clear, ReadLines, Parsed, KeyName, NoStray, Lookup;
  }

  /** The loop of _write_env_key; a missing final newline is added as a line of its own. */
  method WriteLines(lines: seq<string>, key: string, value: string) returns (r: seq<string>)
    ensures Join(r) == Join(PutLines(lines, key, value))
  {
    hide *;
    var found := false;
    r := [];
    for i := 0 to |lines|
      invariant |r| == i
      invariant forall j :: 0 <= j < i ==> r[j] == if Matched(lines[j], key) then Entry(key, value) else lines[j]
      invariant found <==> exists j :: 0 <= j < i && Matched(lines[j], key)
    {
      if Matched(lines[i], key) {
        r := r + [Entry(key, value)];
        found := true;
      } else {
        r := r + [lines[i]];
      }
    }
    WrittenLines(lines, r, key, value, found);
    if !found {
      var e := Entry(key, value);
      if r != [] && !Terminates(r[|r| - 1]) {
        JoinEnded(lines, e);
        r := r + ["\n"];
      }
      r := r + [e];
    }
  }

  lemma WrittenLines(lines: seq<string>, r: seq<string>, key: string, value: string, found: bool)
    requires |r| == |lines|
    requires forall j :: 0 <= j < |r| ==> r[j] == if Matched(lines[j], key) then Entry(key, value) else lines[j]
    requires found <==> exists j :: 0 <= j < |r| && Matched(lines[j], key)
    ensures found ==> r == PutLines(lines, key, value)
    ensures !found ==> r == lines && PutLines(lines, key, value) == Ended(lines) + [Entry(key, value)]
    ensures r == [] || Terminates(r[|r| - 1]) ==> Ended(r) == r
  {
    hide Matched, Entry;
  }

  const CACHE_TTL := 2.0

  class SettingsStore {
    var file: Option<string>           // the characters on disk, if the file exists
    var cache: map<string, string>
    var cacheTs: real
    var environ: map<string, string>

    function Text(): string
      reads this`file
    {
      if file.Some? then file.value else ""
    }

    /** The cache says what the file says. */
    ghost predicate Synced()
      reads this`file, this`cache
    {
      cache == Parsed(ReadLines(Text()))
    }

    /** _parse_env_file */
    method ParseEnvFile() returns (r: map<string, string>)
      ensures r == Parsed(ReadLines(Text()))
    {
      hide ParseLine;
      var lines := ReadLines(Text());
      r := map[];
      for i := 0 to |lines|
        invariant r == Parsed(lines[..i])
      {
        assert lines[..i + 1][..i] == lines[..i];
        var p := ParseLine(lines[i]);
        if p.Some? { r := r[p.value.0 := p.value.1]; }
      }
      assert lines[..|lines|] == lines;
    }

    /** _file_get: what the file says, when the cache was in step or has expired. */
    method FileGet(key: string, now: real) returns (r: Option<string>)
      modifies this`cache, this`cacheTs
      ensures r == Lookup(cache, key)
      ensures now - old(cacheTs) > 2.0 ==> Synced() && cacheTs == now
      ensures now - old(cacheTs) <= 2.0 ==> cache == old(cache) && cacheTs == old(cacheTs)
      ensures old(Synced()) || now - old(cacheTs) > 2.0 ==> Synced() && r == Get(Text(), key)
    {
      if now - cacheTs > CACHE_TTL {
        cache := ParseEnvFile();
        cacheTs := now;
      }
      r := Lookup(cache, key);
    }

    /** _write_env_key. Its assignment to the cache's time stays local to it. */
    method WriteEnvKey(key: string, value: string)
      requires KeyName(key)
      modifies this`file, this`cache, this`environ
      ensures file == Some(Put(old(Text()), key, value))
      ensures cache == old(cache)[key := value] && environ == old(environ)[key := value]
      ensures old(Synced()) ==> (Synced() <==> Sticks(old(Text()), key, value))
    {
      ghost var text, was := Text(), cache;
      hide ReadLines, PutLines, Join, Parsed, Sticks, KeyName;
      var written := WriteLines(ReadLines(Text()), key, value);
      SyncAfterPut(text, was, key, value);
      file := Some(Join(written));
      assert Text() == Put(text, key, value);
      cache := cache[key := value];
      environ := environ[key := value];
    }

    /** clear_override: the file and the cache; the environment keeps the old value. */
    method ClearOverride(key: string)
      requires KeyName(key)
      modifies this`file, this`cache
      ensures old(file).None? ==> file == old(file) && cache == old(cache)
      ensures old(file).Some? ==> file == Some(Clear(old(Text()), key)) && cache == old(cache) - {key}
      ensures old(file).Some? && old(Synced()) ==>
        (Synced() <==> NoStray(ReadLines(old(Text())), key))
    {
      if file.None? { return; }
      ghost var text, was := Text(), cache;
      hide *;
      var kept := KeepLines(ReadLines(file.value), key);
      SyncAfterClear(text, was, key);
      ClearIs(text, key);
      file := Some(Join(kept));
      TextOf(file.value);
      cache := cache - {key};
    }

    lemma TextOf(text: string)
      requires file == Some(text)
      ensures Text() == text && (Synced() <==> cache == Parsed(ReadLines(text)))
    {
      hide ReadLines, Parsed;
    }
  }

  lemma ClearIs(text: string, key: string)
    ensures Clear(text, key) == Join(Kept(ReadLines(text), key))
  {
    hide ReadLines, Kept, Join;
  }

  method KeepLines(lines: seq<string>, key: string) returns (kept: seq<string>)
    ensures kept == Kept(lines, key)
  {
    hide Matched;
    kept := [];
    for i := 0 to |lines|
      invariant kept == Kept(lines[..i], key)
    {
      assert lines[..i + 1][..i] == lines[..i];
      if !Matched(lines[i], key) { kept := kept + [lines[i]]; }
    }
    assert lines[..|lines|] == lines;
  }
}
