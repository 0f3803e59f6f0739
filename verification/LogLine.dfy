/** The log line a seed preview may carry: the matcher, and the pattern it stands for. */
module LogLine {
  import opened Text

  const LEVELS := ["DEBUG", "INFO", "WARN", "ERROR", "FATAL"]
  const TIME_FORM := "0000-00-00T00:00:00"

  predicate InColor(c: char) { IsDigit(c) || c == ';' }

  function Skip(s: string, member: char -> bool): string {
    if s != "" && member(s[0]) then Skip(s[1..], member) else s
  }

  /** What follows at least one character of a kind. */
  function AfterSome(s: string, member: char -> bool): Option<string> {
    if s != "" && member(s[0]) then Some(Skip(s, member)) else None
  }

  /** What follows text of a fixed form, where `0` stands for any digit. */
  function AfterForm(s: string, form: string): Option<string>
    decreases |form|
  {
    if form == "" then Some(s)
    else if s != "" && (if form[0] == '0' then IsDigit(s[0]) else s[0] == form[0]) then AfterForm(s[1..], form[1..])
    else None
  }

  /** What follows a terminal color code, `ESC [ 0-9; m`, if there is one. */
  function AfterColor(s: string): string {
    if StartsWith(s, "\U{1b}[") then
      var rest := Skip(s[2..], InColor);
      if rest != "" && rest[0] == 'm' then rest[1..] else s
    else s
  }

  function AfterLevel(s: string, levels: seq<string>): Option<string> {
    if levels == [] then None
    else if StartsWith(s, levels[0]) then Some(s[|levels[0]|..])
    else AfterLevel(s, levels[1..])
  }

  /** Blanks, at least one of them last, perhaps with a color code before. */
  function AfterGap(s: string): Option<string> {
    var rest := Skip(s, IsSpace);
    if AfterColor(rest) != rest then AfterSome(AfterColor(rest), IsSpace) else AfterSome(s, IsSpace)
  }

  function AfterFraction(s: string): Option<string> {
    if s != "" && s[0] == '.' then AfterSome(s[1..], IsDigit) else Some(s)
  }

  predicate FromPid(s: string) { AfterForm(s, "pid=0").Some? }

  predicate FromSpace(s: string) { AfterSome(s, IsSpace).Some? && FromPid(AfterSome(s, IsSpace).value) }

  predicate FromZone(s: string) { s != "" && s[0] == 'Z' && FromSpace(s[1..]) }

  predicate FromFraction(s: string) { AfterFraction(s).Some? && FromZone(AfterFraction(s).value) }

  predicate FromTime(s: string) { AfterForm(s, TIME_FORM).Some? && FromFraction(AfterForm(s, TIME_FORM).value) }

  predicate FromGap(s: string) { AfterGap(s).Some? && FromTime(AfterGap(s).value) }

  predicate FromLevel(s: string) { AfterLevel(s, LEVELS).Some? && FromGap(AfterLevel(s, LEVELS).value) }

  /** The log line pattern, matched at the start of the line. */
  predicate IsLog(line: string) { FromLevel(AfterColor(line)) }

  // -------------------------------------------------------------------------
  // The pattern
  // -------------------------------------------------------------------------

  predicate All(s: string, member: char -> bool) { forall i :: 0 <= i < |s| ==> member(s[i]) }

  predicate Form(s: string, form: string) {
    |s| == |form| && forall i :: 0 <= i < |s| ==> if form[i] == '0' then IsDigit(s[i]) else s[i] == form[i]
  }

  predicate Color(s: string) {
    |s| >= 3 && s[0] == '\U{1b}' && s[1] == '[' && s[|s| - 1] == 'm' && All(s[2..|s| - 1], InColor)
  }

  predicate Fraction(s: string) { s == "" || (|s| > 1 && s[0] == '.' && All(s[1..], IsDigit)) }

  /** The pieces of a log line, in order. */
  datatype Pieces = Pieces(color: string, level: string, blanks: string, inner: string, gap: string, time: string,
                           fraction: string, space: string, pid: string, rest: string)

  /** An optional color, a level, blanks that may hold a color, an ISO 8601 UTC time, blanks, `pid=`
      and a digit; then anything. */
  ghost predicate Spells(line: string, p: Pieces) {
    && line == p.color + (p.level + (p.blanks + (p.inner + (p.gap
               + (p.time + (p.fraction + ("Z" + (p.space + (p.pid + p.rest)))))))))
    && (p.color == "" || Color(p.color)) && p.level in ["DEBUG", "INFO", "WARN", "ERROR", "FATAL"]
    && All(p.blanks, IsSpace) && (p.inner == "" || Color(p.inner)) && p.gap != "" && All(p.gap, IsSpace)
    && Form(p.time, "0000-00-00T00:00:00") && Fraction(p.fraction)
    && p.space != "" && All(p.space, IsSpace) && Form(p.pid, "pid=0")
  }

  /** What a color code is made of. */
  lemma ColorsExactly(c: char)
    ensures InColor(c) <==> c in "0123456789;"
  {
    var colors := "0123456789;";
    assert forall i :: 0 <= i < 10 ==> colors[i] as int == '0' as int + i;
    if IsDigit(c) {
      assert c == colors[c as int - '0' as int];
    } else {
      assert colors[10] == ';';
    }
  }

  lemma {:induction false} SkipExact(p: string, r: string, member: char -> bool)
    requires All(p, member) && (r == "" || !member(r[0]))
    ensures Skip(p + r, member) == r
  {
    if p == "" {
      assert p + r == r;
    } else {
      assert (p + r)[1..] == p[1..] + r;
      SkipExact(p[1..], r, member);
    }
  }

  lemma {:induction false} SkipSplits(s: string, member: char -> bool) returns (p: string)
    ensures s == p + Skip(s, member) && All(p, member)
    ensures Skip(s, member) == "" || !member(Skip(s, member)[0])
    ensures s != "" && member(s[0]) ==> p != ""
  {
    if s != "" && member(s[0]) {
      var q := SkipSplits(s[1..], member);
      p := [s[0]] + q;
      assert s == [s[0]] + s[1..];
    } else {
      p := "";
    }
  }

  lemma {:induction false} FormExact(p: string, r: string, form: string)
    requires Form(p, form)
    ensures AfterForm(p + r, form) == Some(r)
    decreases |form|
  {
    if form == "" {
      assert p + r == r;
    } else {
      assert (p + r)[1..] == p[1..] + r;
      FormExact(p[1..], r, form[1..]);
    }
  }

  lemma {:induction false} FormSplits(s: string, form: string) returns (p: string)
    requires AfterForm(s, form).Some?
    ensures s == p + AfterForm(s, form).value && Form(p, form)
    decreases |form|
  {
    hide IsDigit;
    if form == "" {
      p := "";
    } else {
      var q := FormSplits(s[1..], form[1..]);
      p := [s[0]] + q;
      assert form == [form[0]] + form[1..];
      assert s == [s[0]] + s[1..];
    }
  }

  lemma ColorExact(p: string, r: string)
    requires Color(p)
    ensures AfterColor(p + r) == r && !IsSpace('\U{1b}') && |r| < |p + r|
  {
    var body := p[2..|p| - 1];
    var s := p + r;
    assert s[..2] == "\U{1b}[";
    assert s[2..] == body + ("m" + r);
    SkipExact(body, "m" + r, InColor);
    assert ("m" + r)[1..] == r;
  }

  lemma ColorSplits(s: string) returns (p: string)
    ensures s == p + AfterColor(s) && (p == "" || Color(p))
    ensures AfterColor(s) != s ==> p != ""
  {
    p := "";
    if AfterColor(s) != s {
      var body := SkipSplits(s[2..], InColor);
      var rest := Skip(s[2..], InColor);
      p := s[..2] + (body + "m");
      assert s[..2] == "\U{1b}[" && p[2..|p| - 1] == body;
      assert rest == "m" + rest[1..];
      assert s == s[..2] + (body + ("m" + rest[1..]));
    }
  }

  lemma LevelExact(level: string, r: string)
    requires level in LEVELS
    ensures AfterLevel(level + r, LEVELS) == Some(r)
  {
    var s, l := level + r, LEVELS;
    assert s[..|level|] == level && s[|level|..] == r && s[0] == level[0];
    assert l[1..] == ["INFO", "WARN", "ERROR", "FATAL"];
    assert l[1..][1..] == ["WARN", "ERROR", "FATAL"];
    assert l[1..][1..][1..] == ["ERROR", "FATAL"];
    assert l[1..][1..][1..][1..] == ["FATAL"];
    LevelStep(s, l);
    LevelStep(s, l[1..]);
    LevelStep(s, l[1..][1..]);
    LevelStep(s, l[1..][1..][1..]);
    LevelStep(s, l[1..][1..][1..][1..]);
  }

  lemma LevelStep(s: string, levels: seq<string>)
    requires levels != [] && levels[0] != "" && s != ""
    ensures StartsWith(s, levels[0]) ==> AfterLevel(s, levels) == Some(s[|levels[0]|..])
    ensures s[0] != levels[0][0] ==> AfterLevel(s, levels) == AfterLevel(s, levels[1..])
  {
  }

  lemma {:induction false} LevelSplits(s: string, levels: seq<string>) returns (p: string)
    requires AfterLevel(s, levels).Some?
    ensures s == p + AfterLevel(s, levels).value && p in levels
  {
    if StartsWith(s, levels[0]) {
      p := levels[0];
      assert s == s[..|p|] + s[|p|..];
    } else {
      p := LevelSplits(s, levels[1..]);
    }
  }

  lemma GapExact(blanks: string, inner: string, gap: string, r: string)
    requires All(blanks, IsSpace) && (inner == "" || Color(inner)) && gap != "" && All(gap, IsSpace)
    requires r != "" && IsDigit(r[0])
    ensures AfterGap(blanks + (inner + (gap + r))) == Some(r)
  {
    var s := blanks + (inner + (gap + r));
    assert !IsSpace(r[0]) && r[0] != '\U{1b}';
    hide IsDigit, IsSpace, Color;
    SkipExact(gap, r, IsSpace);
    if inner == "" {
      assert s == (blanks + gap) + r && s[0] == (blanks + gap)[0];
      SkipExact(blanks + gap, r, IsSpace);
    } else {
      ColorBegins(inner);
      ColorExact(inner, gap + r);
      SkipExact(blanks, inner + (gap + r), IsSpace);
      assert (gap + r)[0] == gap[0];
    }
  }

  lemma ColorBegins(p: string)
    requires Color(p)
    ensures p != "" && p[0] == '\U{1b}' && !IsSpace(p[0])
  {
  }

  lemma GapSplits(s: string) returns (blanks: string, inner: string, gap: string)
    requires AfterGap(s).Some?
    ensures s == blanks + (inner + (gap + AfterGap(s).value))
    ensures All(blanks, IsSpace) && (inner == "" || Color(inner)) && gap != "" && All(gap, IsSpace)
  {
    hide IsSpace, Color;
    var rest := Skip(s, IsSpace);
    blanks := SkipSplits(s, IsSpace);
    inner := ColorSplits(rest);
    if AfterColor(rest) != rest {
      gap := SkipSplits(AfterColor(rest), IsSpace);
    } else {
      blanks, inner, gap := "", "", blanks;
      NothingBefore(gap + AfterGap(s).value);
    }
  }

  lemma NothingBefore(s: string)
    ensures "" + ("" + s) == s
  {
  }

  lemma FractionExact(p: string, r: string)
    requires Fraction(p) && r != "" && r[0] == 'Z'
    ensures AfterFraction(p + r) == Some(r)
  {
    if p == "" {
      assert p + r == r;
    } else {
      assert (p + r)[1..] == p[1..] + r;
      SkipExact(p[1..], r, IsDigit);
    }
  }

  lemma FractionSplits(s: string) returns (p: string)
    requires AfterFraction(s).Some?
    ensures s == p + AfterFraction(s).value && Fraction(p)
  {
    p := "";
    if s != "" && s[0] == '.' {
      var digits := SkipSplits(s[1..], IsDigit);
      p := "." + digits;
      assert p[1..] == digits && s == "." + s[1..];
    }
  }

  lemma SpaceExact(p: string, r: string)
    requires p != "" && All(p, IsSpace) && r != "" && r[0] == 'p'
    ensures AfterSome(p + r, IsSpace) == Some(r)
  {
    assert !IsSpace('p') && (p + r)[0] == p[0];
    SkipExact(p, r, IsSpace);
  }

  /** The tail of a line from its time on. */
  lemma TailMatches(p: Pieces)
    requires Form(p.time, TIME_FORM) && Fraction(p.fraction) && p.space != "" && All(p.space, IsSpace)
             && Form(p.pid, "pid=0")
    ensures var r := p.time + (p.fraction + ("Z" + (p.space + (p.pid + p.rest))));
            FromTime(r) && r != "" && IsDigit(r[0])
  {
    hide IsSpace;
    var a := p.pid + p.rest;
    FormExact(p.pid, p.rest, "pid=0");
    assert a[0] == 'p';
    SpaceExact(p.space, a);
    var b := "Z" + (p.space + a);
    assert b[1..] == p.space + a;
    FractionExact(p.fraction, b);
    FormExact(p.time, p.fraction + b, TIME_FORM);
    assert TIME_FORM[0] == '0';
  }

  lemma TailSplits(s: string) returns (p: Pieces)
    requires FromTime(s)
    ensures s == p.time + (p.fraction + ("Z" + (p.space + (p.pid + p.rest))))
    ensures Form(p.time, TIME_FORM) && Fraction(p.fraction) && p.space != "" && All(p.space, IsSpace)
            && Form(p.pid, "pid=0")
  {
    hide IsSpace, Form, Fraction, All, AfterForm, AfterFraction, FromSpace;
    var time := FormSplits(s, TIME_FORM);
    var a := AfterForm(s, TIME_FORM).value;
    var fraction := FractionSplits(a);
    var b := AfterFraction(a).value;
    var space, pid, rest := PidSplits(b[1..]);
    assert b == "Z" + b[1..];
    p := Pieces("", "", "", "", "", time, fraction, space, pid, rest);
  }

  lemma PidSplits(s: string) returns (space: string, pid: string, rest: string)
    requires FromSpace(s)
    ensures s == space + (pid + rest) && space != "" && All(space, IsSpace) && Form(pid, "pid=0")
  {
    hide IsSpace, Form, All, AfterForm;
    space := SkipSplits(s, IsSpace);
    pid := FormSplits(Skip(s, IsSpace), "pid=0");
    rest := AfterForm(Skip(s, IsSpace), "pid=0").value;
  }

  /** The matcher accepts exactly the lines the pattern describes. */
  lemma LogExactly(line: string)
    ensures IsLog(line) <==> exists p :: Spells(line, p)
  {
    if IsLog(line) {
      var p := LogSplits(line);
    }
    forall p | Spells(line, p) ensures IsLog(line) {
      LogMatches(line, p);
    }
  }

  lemma LogMatches(line: string, p: Pieces)
    requires Spells(line, p)
    ensures IsLog(line)
  {
    hide Color, Form, Fraction, IsSpace, FromTime, All, AfterLevel, AfterGap;
    TailMatches(p);
    var r := p.time + (p.fraction + ("Z" + (p.space + (p.pid + p.rest))));
    GapExact(p.blanks, p.inner, p.gap, r);
    var g := p.blanks + (p.inner + (p.gap + r));
    LevelExact(p.level, g);
    LevelNoColor(p.level, g);
    if p.color == "" {
      assert line == p.level + g;
    } else {
      ColorExact(p.color, p.level + g);
    }
  }

  lemma LevelNoColor(level: string, r: string)
    requires level in LEVELS
    ensures AfterColor(level + r) == level + r
  {
    assert (level + r)[0] == level[0];
  }

  lemma LogSplits(line: string) returns (p: Pieces)
    requires IsLog(line)
    ensures Spells(line, p)
  {
    hide Color, Form, Fraction, IsSpace, FromTime, All, AfterColor, AfterLevel, AfterGap;
    var color := ColorSplits(line);
    var s := AfterColor(line);
    var level := LevelSplits(s, LEVELS);
    var g := AfterLevel(s, LEVELS).value;
    var blanks, inner, gap := GapSplits(g);
    var t := TailSplits(AfterGap(g).value);
    p := t.(color := color, level := level, blanks := blanks, inner := inner, gap := gap);
  }

  lemma LogBegins(line: string)
    ensures IsLog(line) ==> line != "" && line[0] != ' '
  {
    if IsLog(line) {
      var p := LogSplits(line);
      assert p.color == "" ==> line[0] == p.level[0];
      assert p.color != "" ==> line[0] == p.color[0];
    }
  }
}
