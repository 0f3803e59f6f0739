/** The fingerprint of a seed preview: run-specific ids and log lines leave it, nothing else does. */
module SeedPreview {
  import opened Text
  import Blkid
  import L = LogLine

  // -------------------------------------------------------------------------
  // The three places a new row's id reaches
  // -------------------------------------------------------------------------

  datatype Shape = Diff | Drift | Link

  const INDENT := "             "
  const LINK_OPENING := "  [link  ] "
  const PLACEHOLDER := "<id>"

  /** What stands right before the id. */
  function Lead(shape: Shape): string {
    match shape
    case Diff => " \U{2192} "
    case Drift => ", manifest "
    case Link => " \U{2192} ProvisionDriver #"
  }

  predicate NameChar(c: char) { 'a' <= c <= 'z' || c == '_' }

  /** `[a-z_]+_id`. */
  predicate IdName(name: string) {
    EndsWith(name, "_id") && |name| > 3 && forall i :: 0 <= i < |name| ==> NameChar(name[i])
  }

  /** Thirteen spaces, an `_id` attribute, and what must follow it. */
  predicate OpensWithId(s: string, after: string) {
    && StartsWith(s, INDENT)
    && var rest := s[|INDENT|..];
       IdName(rest[..Find(rest, ':')]) && StartsWith(rest[Find(rest, ':')..], after)
  }

  predicate Opens(shape: Shape, s: string) {
    match shape
    case Diff => OpensWithId(s, ": ")
    case Drift => OpensWithId(s, ": database ")
    case Link => StartsWith(s, LINK_OPENING)
  }

  /** A line of this shape up to its id. */
  predicate IsHead(shape: Shape, head: string) {
    '\n' !in head && EndsWith(head, Lead(shape)) && Opens(shape, head[..|head| - |Lead(shape)|])
  }

  /** The pattern itself: a head, digits, and the end of the line or a final line feed. */
  ghost predicate Matches(shape: Shape, line: string, head: string, digits: string, tail: string) {
    line == head + digits + tail && IsHead(shape, head) && AllDigits(digits) && (tail == "" || tail == "\n")
  }

  function Core(line: string): string { if line != "" && line[|line| - 1] == '\n' then line[..|line| - 1] else line }

  function Tail(line: string): string { if line != "" && line[|line| - 1] == '\n' then "\n" else "" }

  /** Where the digits at the end of `s` begin. */
  function DigitsStart(s: string): (i: nat)
    ensures i <= |s| && (forall k :: i <= k < |s| ==> IsDigit(s[k])) && (i > 0 ==> !IsDigit(s[i - 1]))
  {
    if s != "" && IsDigit(s[|s| - 1]) then DigitsStart(s[..|s| - 1]) else |s|
  }

  /** `pattern.sub`, for one of the three patterns. */
  function Rewrite(shape: Shape, line: string): string {
    var core := Core(line);
    var i := DigitsStart(core);
    if i < |core| && IsHead(shape, core[..i]) then core[..i] + PLACEHOLDER + Tail(line) else line
  }

  lemma HeadFacts(shape: Shape, head: string)
    requires IsHead(shape, head)
    ensures |head| > 1 && head[0] == ' ' && !IsDigit(head[|head| - 1])
    ensures head[|head| - 1] == if shape == Link then '#' else ' '
    ensures shape == Diff ==> head[|head| - 2] == '\U{2192}'
    ensures shape == Drift ==> head[|head| - 2] == 't'
  {
    var lead := Lead(shape);
    assert head[|head| - |lead|..][|lead| - 1] == head[|head| - 1];
    assert head[|head| - |lead|..][|lead| - 2] == head[|head| - 2];
    assert head[0] == head[..|head| - |lead|][0];
  }

  /** What must follow the attribute name. */
  function AfterName(shape: Shape): string
    requires shape != Link
  {
    if shape == Diff then ": " else ": database "
  }

  lemma Assoc(a: string, b: string, c: string)
    ensures (a + b) + c == a + (b + c)
  {
  }

  /** The heads of the two attribute patterns, piece by piece. */
  lemma HeadExactly(shape: Shape, head: string)
    requires shape != Link
    ensures IsHead(shape, head) <==>
            '\n' !in head && exists name, body ::
              IdName(name) && head == INDENT + (name + (AfterName(shape) + (body + Lead(shape))))
  {
    hide IdName, AfterName, Lead, Opens;
    if IsHead(shape, head) {
      var front := head[..|head| - |Lead(shape)|];
      assert head == front + Lead(shape);
      OpensIsFront(shape, front);
      var name, body := FrontPieces(front, AfterName(shape));
      Assoc(INDENT, name + (AfterName(shape) + body), Lead(shape));
      Assoc(name, AfterName(shape) + body, Lead(shape));
      Assoc(AfterName(shape), body, Lead(shape));
    }
    forall name, body | IdName(name) && head == INDENT + (name + (AfterName(shape) + (body + Lead(shape))))
      ensures EndsWith(head, Lead(shape)) && Opens(shape, head[..|head| - |Lead(shape)|])
    {
      PiecesHead(shape, head, name, body);
    }
  }

  lemma OpensIsFront(shape: Shape, front: string)
    requires shape != Link
    ensures Opens(shape, front) <==> OpensWithId(front, AfterName(shape))
    ensures AfterName(shape) != "" && AfterName(shape)[0] == ':'
  {
    hide OpensWithId;
  }

  lemma FrontPieces(front: string, after: string) returns (name: string, body: string)
    requires OpensWithId(front, after)
    ensures IdName(name) && front == INDENT + (name + (after + body))
  {
    hide IdName, Find;
    var rest := front[|INDENT|..];
    var i := Find(rest, ':');
    name := rest[..i];
    var tail := rest[i..];
    body := tail[|after|..];
    assert tail == after + body;
    assert rest == name + tail;
    assert front == INDENT + rest;
  }

  lemma PiecesFront(front: string, name: string, after: string, body: string)
    requires IdName(name) && after != "" && after[0] == ':' && front == INDENT + (name + (after + body))
    ensures OpensWithId(front, after)
  {
    NoColon(name);
    hide IdName;
    var tail := after + body;
    var rest := name + tail;
    assert front[..|INDENT|] == INDENT && front[|INDENT|..] == rest;
    assert tail == [':'] + tail[1..];
    Assoc(name, [':'], tail[1..]);
    FindFirst(name, ':', tail[1..]);
    hide Find;
    assert rest[..|name|] == name && rest[|name|..] == tail;
  }

  lemma PiecesHead(shape: Shape, head: string, name: string, body: string)
    requires shape != Link && IdName(name) && head == INDENT + (name + (AfterName(shape) + (body + Lead(shape))))
    ensures EndsWith(head, Lead(shape)) && Opens(shape, head[..|head| - |Lead(shape)|])
  {
    var after, lead := AfterName(shape), Lead(shape);
    var front := INDENT + (name + (after + body));
    OpensIsFront(shape, front);
    hide IdName, AfterName, Lead, Opens;
    Assoc(INDENT, name + (after + body), lead);
    Assoc(name, after + body, lead);
    Assoc(after, body, lead);
    assert head == front + lead;
    assert head[..|front|] == front && head[|front|..] == lead;
    PiecesFront(front, name, after, body);
  }

  lemma NoColon(name: string)
    requires IdName(name)
    ensures ':' !in name
  {
  }

  /** A head has one shape. */
  lemma OneShape(s: Shape, t: Shape, head: string)
    requires IsHead(s, head) && IsHead(t, head)
    ensures s == t
  {
    hide IsHead;
    HeadFacts(s, head);
    HeadFacts(t, head);
  }


  /** Splitting a line that matches can only go one way, and rewriting replaces just the digits. */
  lemma MatchIsFound(shape: Shape, line: string, head: string, digits: string, tail: string)
    requires Matches(shape, line, head, digits, tail)
    ensures Core(line) == head + digits && Tail(line) == tail && DigitsStart(head + digits) == |head|
    ensures Rewrite(shape, line) == head + PLACEHOLDER + tail
  {
    hide IsHead;
    HeadFacts(shape, head);
    var core := head + digits;
    assert line[|line| - 1] == if tail == "" then digits[|digits| - 1] else '\n';
    assert Core(line) == core;
    var i := DigitsStart(core);
    assert core[|head| - 1] == head[|head| - 1];
    forall k | |head| <= k < |core| ensures IsDigit(core[k]) { assert core[k] == digits[k - |head|]; }
    assert core[..|head|] == head;
  }

  /** The rewriting changes a line exactly when the pattern matches it. */
  lemma RewriteExactly(shape: Shape, line: string)
    ensures (exists head, digits, tail :: Matches(shape, line, head, digits, tail)) <==> Rewrite(shape, line) != line
    ensures Rewrite(shape, line) != line ==>
              var core := Core(line);
              Matches(shape, line, core[..DigitsStart(core)], core[DigitsStart(core)..], Tail(line))
  {
    hide *;
    forall head, digits, tail | Matches(shape, line, head, digits, tail) ensures Rewrite(shape, line) != line {
      MatchChanges(shape, line, head, digits, tail);
    }
    RewriteMatches(shape, line);
  }

  lemma MatchChanges(shape: Shape, line: string, head: string, digits: string, tail: string)
    requires Matches(shape, line, head, digits, tail)
    ensures Rewrite(shape, line) != line
  {
    hide IsHead, Rewrite;
    MatchIsFound(shape, line, head, digits, tail);
    NotDigits(head, digits, tail);
  }

  lemma RewriteMatches(shape: Shape, line: string)
    ensures var core := Core(line);
            var head, digits := core[..DigitsStart(core)], core[DigitsStart(core)..];
            Rewrite(shape, line) == line
            || (Matches(shape, line, head, digits, Tail(line))
               && Rewrite(shape, line) == head + PLACEHOLDER + Tail(line))
  {
    hide IsHead, Core, Tail, DigitsStart, IsDigit;
    SplitsBack(line);
    DigitsAre(Core(line));
    TailIsEnd(line);
  }

  lemma SplitsBack(line: string)
    ensures var core := Core(line);
            line == core[..DigitsStart(core)] + core[DigitsStart(core)..] + Tail(line)
  {
    hide DigitsStart;
    var core := Core(line);
    assert line == core + Tail(line);
    assert core == core[..DigitsStart(core)] + core[DigitsStart(core)..];
  }

  lemma NotDigits(head: string, digits: string, tail: string)
    requires AllDigits(digits)
    ensures head + digits + tail != head + PLACEHOLDER + tail
  {
    var a, b := head + digits + tail, head + PLACEHOLDER + tail;
    assert a[|head|] == digits[0] && b[|head|] == '<';
  }

  lemma DigitsAre(s: string)
    ensures forall k :: 0 <= k < |s[DigitsStart(s)..]| ==> IsDigit(s[DigitsStart(s)..][k])
  {
    var i := DigitsStart(s);
    forall k | 0 <= k < |s[i..]| ensures IsDigit(s[i..][k]) { assert s[i..][k] == s[i + k]; }
  }

  lemma RewrittenStays(shape: Shape, head: string, tail: string)
    requires tail == "" || tail == "\n"
    ensures Rewrite(shape, head + PLACEHOLDER + tail) == head + PLACEHOLDER + tail
  {
    var line := head + PLACEHOLDER + tail;
    var core := head + PLACEHOLDER;
    assert line[|line| - 1] == if tail == "" then '>' else '\n';
    assert Core(line) == core && core[|core| - 1] == '>';
  }

  /** A rewritten line matches none of the patterns, so the rewritings are each idempotent and
      commute. */
  lemma RewritesCommute(s: Shape, t: Shape, line: string)
    ensures Rewrite(s, line) != line ==> Rewrite(t, Rewrite(s, line)) == Rewrite(s, line)
    ensures Rewrite(s, Rewrite(t, line)) == Rewrite(t, Rewrite(s, line))
    ensures Rewrite(s, line) != line && Rewrite(t, line) != line ==> s == t
  {
    hide IsHead, Rewrite, Core, Tail, DigitsStart;
    TailIsEnd(line);
    RewriteMatches(s, line);
    RewriteMatches(t, line);
    var head := Core(line)[..DigitsStart(Core(line))];
    RewrittenStays(t, head, Tail(line));
    RewrittenStays(s, head, Tail(line));
    if IsHead(s, head) && IsHead(t, head) {
      OneShape(s, t, head);
    }
  }

  lemma TailIsEnd(line: string)
    ensures Tail(line) == "" || Tail(line) == "\n"
  {
  }

  // -------------------------------------------------------------------------
  // The normal form
  // -------------------------------------------------------------------------

  datatype Output = Missing | Lines(lines: seq<string>) | Whole(text: string)

  /** `_lines`. */
  function LinesOf(o: Output): seq<string> {
    match o
    case Missing => []
    case Lines(lines) => lines
    case Whole(text) => Blkid.SplitLines(text)
  }

  function RewriteAll(line: string): string { Rewrite(Link, Rewrite(Drift, Rewrite(Diff, line))) }

  /** The lines without their trailing carriage returns, log lines left out. */
  function Cleaned(lines: seq<string>): seq<string> {
    if lines == [] then []
    else
      var line := RStripChar(lines[|lines| - 1], '\r');
      Cleaned(lines[..|lines| - 1]) + if L.IsLog(line) then [] else [line]
  }

  function RewriteLines(lines: seq<string>): seq<string> {
    seq(|lines|, i requires 0 <= i < |lines| => RewriteAll(lines[i]))
  }

  function Normal(lines: seq<string>): seq<string> { RewriteLines(Cleaned(lines)) }

  /** `controller_seed_preview_normalize`. */
  method Normalize(o: Output) returns (out: seq<string>)
    ensures out == Normal(LinesOf(o))
  {
    hide Rewrite, L.IsLog, RStripChar;
    var lines := LinesOf(o);
    out := [];
    for i := 0 to |lines|
      invariant out == Normal(lines[..i])
    {
      assert lines[..i + 1][..i] == lines[..i];
      var line := RStripChar(lines[i], '\r');
      if L.IsLog(line) {
        continue;
      }
      line := Rewrite(Diff, line);
      line := Rewrite(Drift, line);
      line := Rewrite(Link, line);
      out := out + [line];
    }
    assert lines[..|lines|] == lines;
  }

  /** What one line becomes: itself, or its head with the placeholder. */
  lemma RewriteAllOne(line: string)
    ensures RewriteAll(line) == line ==> forall s: Shape :: Rewrite(s, line) == line
    ensures RewriteAll(line) != line ==>
              exists s: Shape :: Rewrite(s, line) != line && RewriteAll(line) == Rewrite(s, line)
    ensures forall s: Shape :: Rewrite(s, line) != line ==> RewriteAll(line) == Rewrite(s, line)
  {
    hide Rewrite;
    RewritesCommute(Diff, Drift, line);
    RewritesCommute(Diff, Link, line);
    RewritesCommute(Drift, Link, line);
    forall s: Shape
      ensures Rewrite(s, line) != line ==> RewriteAll(line) == Rewrite(s, line)
      ensures RewriteAll(line) == line ==> Rewrite(s, line) == line
    {
      match s case Diff => case Drift => case Link =>
    }
  }

  lemma NormalLine(line: string)
    requires RStripChar(line, '\r') == line && !L.IsLog(line)
    ensures var r := RewriteAll(line);
            RStripChar(r, '\r') == r && !L.IsLog(r) && RewriteAll(r) == r
  {
    hide L.IsLog, Rewrite;
    RewriteAllOne(line);
    var r := RewriteAll(line);
    if r != line {
      var s: Shape :| Rewrite(s, line) != line && r == Rewrite(s, line);
      RewriteExactly(s, line);
      var core := Core(line);
      var head := core[..DigitsStart(core)];
      MatchIsFound(s, line, head, core[DigitsStart(core)..], Tail(line));
      HeadFacts(s, head);
      RewrittenEnds(head, Tail(line));
      L.LogBegins(r);
      hide IsHead, Matches, Core, Tail, DigitsStart;
      RewrittenStays(Diff, head, Tail(line));
      RewrittenStays(Drift, head, Tail(line));
      RewrittenStays(Link, head, Tail(line));
    }
  }

  lemma RewrittenEnds(head: string, tail: string)
    requires head != "" && (tail == "" || tail == "\n")
    ensures var r := head + PLACEHOLDER + tail;
            r[0] == head[0] && RStripChar(r, '\r') == r
  {
    var r := head + PLACEHOLDER + tail;
    assert r[|r| - 1] == if tail == "" then '>' else '\n';
  }

  lemma {:induction false} RStripTwice(s: string, c: char)
    ensures RStripChar(RStripChar(s, c), c) == RStripChar(s, c)
  {
    if s != "" && s[|s| - 1] == c {
      RStripTwice(s[..|s| - 1], c);
    }
  }

  lemma {:induction false} CleanedLines(lines: seq<string>)
    ensures forall i :: 0 <= i < |Cleaned(lines)| ==>
              RStripChar(Cleaned(lines)[i], '\r') == Cleaned(lines)[i] && !L.IsLog(Cleaned(lines)[i])
  {
    hide L.IsLog, RStripChar;
    if lines != [] {
      CleanedLines(lines[..|lines| - 1]);
      RStripTwice(lines[|lines| - 1], '\r');
    }
  }

  lemma {:induction false} CleanStays(lines: seq<string>)
    requires forall i :: 0 <= i < |lines| ==> RStripChar(lines[i], '\r') == lines[i] && !L.IsLog(lines[i])
    ensures Cleaned(lines) == lines
  {
    hide L.IsLog, RStripChar;
    if lines != [] {
      CleanStays(lines[..|lines| - 1]);
    }
  }

  /** Normalizing twice is normalizing once. */
  lemma NormalIsNormal(lines: seq<string>)
    ensures Normal(Normal(lines)) == Normal(lines)
  {
    hide L.IsLog, RStripChar, RewriteAll, Cleaned;
    CleanedLines(lines);
    var clean := Cleaned(lines);
    forall i | 0 <= i < |clean|
      ensures var r := RewriteAll(clean[i]); RStripChar(r, '\r') == r && !L.IsLog(r) && RewriteAll(r) == r
    {
      NormalLine(clean[i]);
    }
    CleanStays(Normal(lines));
  }

  // -------------------------------------------------------------------------
  // The fingerprint
  // -------------------------------------------------------------------------

  /** The same line, or two lines of one shape that differ in nothing but the id. */
  ghost predicate AlikeButId(a: string, b: string) {
    a == b || exists s, head, d, e :: Matches(s, a, head, d, "") && Matches(s, b, head, e, "")
  }

  /** A line that already carries the placeholder where an id would stand. */
  ghost predicate CarriesMark(line: string) {
    exists s, head :: IsHead(s, head) && line == head + PLACEHOLDER
  }

  /** An id, or the placeholder already. */
  predicate IdOrMark(s: string) { AllDigits(s) || s == PLACEHOLDER }

  /** The same line, or two lines of one shape that differ only in an id or a placeholder in its place. */
  ghost predicate AlikeButSlot(a: string, b: string) {
    a == b || exists s, head, x, y :: InSlot(s, a, head, x) && InSlot(s, b, head, y)
  }

  ghost predicate InSlot(shape: Shape, line: string, head: string, x: string) {
    line == head + x && IsHead(shape, head) && IdOrMark(x)
  }

  /** Without any assumption on the lines: they are rewritten alike exactly when they are alike but for
      what stands in the place of an id. */
  lemma SlotsDecide(a: string, b: string)
    requires '\n' !in a && '\n' !in b
    ensures RewriteAll(a) == RewriteAll(b) <==> AlikeButSlot(a, b)
  {
    hide IsHead, RewriteAll, InSlot;
    if RewriteAll(a) == RewriteAll(b) && a != b {
      BothInSlots(a, b);
    }
    forall s, head, x, y | InSlot(s, a, head, x) && InSlot(s, b, head, y) ensures RewriteAll(a) == RewriteAll(b) {
      SlotRewrites(s, a, head, x);
      SlotRewrites(s, b, head, y);
    }
  }

  lemma SlotRewrites(shape: Shape, line: string, head: string, x: string)
    requires InSlot(shape, line, head, x)
    ensures RewriteAll(line) == head + PLACEHOLDER
  {
    hide IsHead, Rewrite;
    assert head + PLACEHOLDER + "" == head + PLACEHOLDER && head + x + "" == line;
    if x == PLACEHOLDER {
      RewrittenStays(Diff, head, "");
      RewrittenStays(Drift, head, "");
      RewrittenStays(Link, head, "");
    } else {
      MatchIsFound(shape, line, head, x, "");
      NotDigits(head, x, "");
      RewriteAllOne(line);
    }
  }

  lemma BothInSlots(a: string, b: string)
    requires '\n' !in a && '\n' !in b && a != b && RewriteAll(a) == RewriteAll(b)
    ensures AlikeButSlot(a, b)
  {
    hide IsHead, RewriteAll;
    Rewritten(a);
    Rewritten(b);
    if RewriteAll(a) != a {
      var s, head, d :| Matches(s, a, head, d, "") && RewriteAll(a) == head + PLACEHOLDER;
      assert head + d + "" == head + d;
      assert InSlot(s, a, head, d);
      if RewriteAll(b) == b {
        assert InSlot(s, b, head, PLACEHOLDER);
      } else {
        var t, other, e :| Matches(t, b, other, e, "") && RewriteAll(b) == other + PLACEHOLDER;
        assert head == RewriteAll(a)[..|RewriteAll(a)| - |PLACEHOLDER|] == other;
        assert other + e + "" == other + e;
        OneShape(s, t, head);
        assert InSlot(s, b, head, e);
      }
    } else {
      var t, other, e :| Matches(t, b, other, e, "") && RewriteAll(b) == other + PLACEHOLDER;
      assert other + e + "" == other + e;
      assert InSlot(t, b, other, e) && InSlot(t, a, other, PLACEHOLDER);
    }
  }

  lemma SameRewriteExactly(a: string, b: string)
    requires '\n' !in a && '\n' !in b && !CarriesMark(a) && !CarriesMark(b)
    ensures RewriteAll(a) == RewriteAll(b) <==> AlikeButId(a, b)
  {
    hide IsHead, Rewrite, CarriesMark;
    RewriteAllOne(a);
    RewriteAllOne(b);
    Rewritten(a);
    Rewritten(b);
    if RewriteAll(a) == RewriteAll(b) && a != b {
      if RewriteAll(a) == a {
        MarkedIsMarked(b);
      } else if RewriteAll(b) == b {
        MarkedIsMarked(a);
      } else {
        SameHeads(a, b);
      }
    }
    if s, head, d, e :| Matches(s, a, head, d, "") && Matches(s, b, head, e, "") {
      MatchIsFound(s, a, head, d, "");
      MatchIsFound(s, b, head, e, "");
      RewriteExactly(s, a);
      RewriteExactly(s, b);
    }
  }

  /** A rewritten line, as its head, its digits and its shape. */
  lemma Rewritten(line: string)
    requires '\n' !in line
    ensures RewriteAll(line) != line ==>
              exists s, head, digits :: Matches(s, line, head, digits, "") && RewriteAll(line) == head + PLACEHOLDER
  {
    hide IsHead, Rewrite;
    RewriteAllOne(line);
    if RewriteAll(line) != line {
      var s: Shape :| Rewrite(s, line) != line && RewriteAll(line) == Rewrite(s, line);
      RewriteExactly(s, line);
      var head, digits := line[..DigitsStart(line)], line[DigitsStart(line)..];
      assert Core(line) == line && Tail(line) == "";
      MatchIsFound(s, line, head, digits, "");
      assert head + PLACEHOLDER + "" == head + PLACEHOLDER;
    }
  }

  lemma MarkedIsMarked(line: string)
    requires '\n' !in line && RewriteAll(line) != line
    ensures CarriesMark(RewriteAll(line))
  {
    hide IsHead, RewriteAll;
    Rewritten(line);
  }

  lemma SameHeads(a: string, b: string)
    requires '\n' !in a && '\n' !in b && RewriteAll(a) != a && RewriteAll(b) != b && RewriteAll(a) == RewriteAll(b)
    ensures AlikeButId(a, b)
  {
    hide IsHead, RewriteAll;
    Rewritten(a);
    Rewritten(b);
    var s, head, d :| Matches(s, a, head, d, "") && RewriteAll(a) == head + PLACEHOLDER;
    var t, other, e :| Matches(t, b, other, e, "") && RewriteAll(b) == other + PLACEHOLDER;
    assert head == RewriteAll(a)[..|RewriteAll(a)| - |PLACEHOLDER|] == other;
    OneShape(s, t, head);
  }

  function Document(lines: seq<string>): string {
    if lines == [] then "" else lines[0] + ['\n'] + Document(lines[1..])
  }

  lemma {:induction false} DocumentInjective(a: seq<string>, b: seq<string>)
    requires forall i :: 0 <= i < |a| ==> '\n' !in a[i]
    requires forall i :: 0 <= i < |b| ==> '\n' !in b[i]
    ensures Document(a) == Document(b) ==> a == b
  {
    if a == [] || b == [] {
      assert b != [] ==> |Document(b)| > 0;
      assert a != [] ==> |Document(a)| > 0;
    } else if Document(a) == Document(b) {
      var s := Document(a);
      FindFirst(a[0], '\n', Document(a[1..]));
      FindFirst(b[0], '\n', Document(b[1..]));
      assert a[0] == s[..Find(s, '\n')] == b[0];
      assert Document(a[1..]) == s[Find(s, '\n') + 1..] == Document(b[1..]);
      DocumentInjective(a[1..], b[1..]);
      assert a == [a[0]] + a[1..] && b == [b[0]] + b[1..];
    }
  }

  predicate AnyText(lines: seq<string>) { exists i :: 0 <= i < |lines| && Strip(lines[i]) != "" }

  /** `controller_seed_preview_sha256`; an empty preview has none. */
  function Fingerprint(lines: seq<string>, hash: string -> string): Option<string> {
    if AnyText(Normal(lines)) then Some(hash(Document(Normal(lines)))) else None
  }

  ghost predicate Injective(hash: string -> string) {
    forall a, b :: hash(a) == hash(b) ==> a == b
  }

  ghost predicate LineFeedFree(lines: seq<string>) { forall i :: 0 <= i < |lines| ==> '\n' !in lines[i] }

  ghost predicate MarkFree(lines: seq<string>) { forall i :: 0 <= i < |lines| ==> !CarriesMark(lines[i]) }

  ghost predicate AlikeLines(a: seq<string>, b: seq<string>) {
    |a| == |b| && forall i :: 0 <= i < |a| ==> AlikeButId(a[i], b[i])
  }

  ghost predicate AlikeSlots(a: seq<string>, b: seq<string>) {
    |a| == |b| && forall i :: 0 <= i < |a| ==> AlikeButSlot(a[i], b[i])
  }

  lemma {:induction false} CleanedLineFree(lines: seq<string>)
    requires LineFeedFree(lines)
    ensures LineFeedFree(Cleaned(lines))
  {
    hide L.IsLog;
    if lines != [] {
      CleanedLineFree(lines[..|lines| - 1]);
      RStripMembers(lines[|lines| - 1], '\r');
    }
  }

  lemma {:induction false} RStripMembers(s: string, c: char)
    ensures RStripChar(s, c) <= s
  {
    if s != "" && s[|s| - 1] == c {
      RStripMembers(s[..|s| - 1], c);
    }
  }

  lemma RewrittenLineFree(line: string)
    requires '\n' !in line
    ensures '\n' !in RewriteAll(line)
  {
    hide IsHead, RewriteAll;
    Rewritten(line);
  }

  lemma SameFingerprint(a: seq<string>, b: seq<string>, hash: string -> string)
    requires Injective(hash) && LineFeedFree(a) && LineFeedFree(b)
    requires Fingerprint(a, hash).Some? && Fingerprint(b, hash).Some?
    ensures Fingerprint(a, hash) == Fingerprint(b, hash) <==> Normal(a) == Normal(b)
  {
    hide AnyText, Cleaned, RewriteAll, Injective;
    CleanedLineFree(a);
    CleanedLineFree(b);
    NormalLineFree(Cleaned(a));
    NormalLineFree(Cleaned(b));
    DocumentInjective(Normal(a), Normal(b));
    HashInjective(hash, Document(Normal(a)), Document(Normal(b)));
  }

  /** For all previews: one fingerprint exactly when, trailing carriage returns and log lines aside, they
      agree line by line in everything but what stands in the place of an id, a number or the
      placeholder. */
  lemma FingerprintOfSlots(a: seq<string>, b: seq<string>, hash: string -> string)
    requires Injective(hash) && LineFeedFree(a) && LineFeedFree(b)
    requires Fingerprint(a, hash).Some? && Fingerprint(b, hash).Some?
    ensures Fingerprint(a, hash) == Fingerprint(b, hash) <==> AlikeSlots(Cleaned(a), Cleaned(b))
  {
    hide AnyText, Cleaned, RewriteAll, Injective, AlikeButSlot, Fingerprint;
    SameFingerprint(a, b, hash);
    CleanedLineFree(a);
    CleanedLineFree(b);
    var x, y := Cleaned(a), Cleaned(b);
    if |x| == |y| {
      forall i | 0 <= i < |x| ensures RewriteAll(x[i]) == RewriteAll(y[i]) <==> AlikeButSlot(x[i], y[i]) {
        SlotsDecide(x[i], y[i]);
      }
      SameRewrites(x, y);
    }
  }

  /** Two previews have one fingerprint exactly when, trailing carriage returns and log lines aside,
      they agree line by line in everything but the ids in those three places. */
  lemma FingerprintExactly(a: seq<string>, b: seq<string>, hash: string -> string)
    requires Injective(hash) && LineFeedFree(a) && LineFeedFree(b) && MarkFree(Cleaned(a)) && MarkFree(Cleaned(b))
    requires Fingerprint(a, hash).Some? && Fingerprint(b, hash).Some?
    ensures Fingerprint(a, hash) == Fingerprint(b, hash) <==> AlikeLines(Cleaned(a), Cleaned(b))
  {
    hide AnyText, Cleaned, RewriteAll, CarriesMark, Injective, AlikeButId, Fingerprint;
    SameFingerprint(a, b, hash);
    CleanedLineFree(a);
    CleanedLineFree(b);
    var x, y := Cleaned(a), Cleaned(b);
    if |x| == |y| {
      forall i | 0 <= i < |x| ensures RewriteAll(x[i]) == RewriteAll(y[i]) <==> AlikeButId(x[i], y[i]) {
        SameRewriteExactly(x[i], y[i]);
      }
      SameRewrites(x, y);
    }
  }

  lemma SameRewrites(x: seq<string>, y: seq<string>)
    requires |x| == |y|
    ensures RewriteLines(x) == RewriteLines(y) <==> forall i :: 0 <= i < |x| ==> RewriteAll(x[i]) == RewriteAll(y[i])
  {
    hide RewriteAll;
    if RewriteLines(x) == RewriteLines(y) {
      forall i | 0 <= i < |x| ensures RewriteAll(x[i]) == RewriteAll(y[i]) {
        assert RewriteLines(x)[i] == RewriteLines(y)[i];
      }
    }
  }

  lemma NormalLineFree(clean: seq<string>)
    requires LineFeedFree(clean)
    ensures forall i :: 0 <= i < |RewriteLines(clean)| ==> '\n' !in RewriteLines(clean)[i]
  {
    hide RewriteAll;
    forall i | 0 <= i < |clean| ensures '\n' !in RewriteAll(clean[i]) { RewrittenLineFree(clean[i]); }
  }

  lemma HashInjective(hash: string -> string, a: string, b: string)
    requires Injective(hash)
    ensures hash(a) == hash(b) <==> a == b
  {
  }

  /** With the placeholder already in a raw line the fingerprint is blind to it: two previews that do
      not agree even up to digits share one. */
  lemma RawMarkCollides() returns (a: seq<string>, b: seq<string>)
    ensures Normal(a) == Normal(b) && !AlikeLines(Cleaned(a), Cleaned(b))
  {
    var head := INDENT + "dns_id: 1" + Lead(Diff);
    a, b := [head + "7"], [head + PLACEHOLDER];
    ExampleHead(head);
    hide *;
    HeadCollides(head);
  }

  lemma HeadCollides(head: string)
    requires IsHead(Diff, head)
    ensures var a, b := [head + "7"], [head + PLACEHOLDER];
            Normal(a) == Normal(b) && !AlikeLines(Cleaned(a), Cleaned(b))
  {
    hide Lead, IsHead, Matches, RewriteAll, Cleaned, Normal;
    var a, b := head + "7", head + PLACEHOLDER;
    HeadFacts(Diff, head);
    Ends(head, "7");
    Ends(head, PLACEHOLDER);
    CleanOne(a);
    CleanOne(b);
    HeadRewrites(head);
    NormalOne(a);
    NormalOne(b);
    EndsInMark(b);
    assert a != b;
    OneNotAlike(a, b);
  }

  lemma OneNotAlike(a: string, b: string)
    requires a != b && forall s, head, d :: !Matches(s, b, head, d, "")
    ensures !AlikeLines([a], [b])
  {
    hide Matches;
    assert !AlikeButId([a][0], [b][0]);
  }

  lemma Ends(head: string, end: string)
    requires head != "" && end != ""
    ensures (head + end)[0] == head[0] && (head + end)[|head + end| - 1] == end[|end| - 1]
  {
  }

  lemma NormalOne(line: string)
    requires Cleaned([line]) == [line]
    ensures Normal([line]) == [RewriteAll(line)]
  {
    hide RewriteAll, Cleaned;
  }

  lemma CleanOne(line: string)
    requires line != "" && line[0] == ' ' && line[|line| - 1] != '\r'
    ensures Cleaned([line]) == [line]
  {
    L.LogBegins(line);
    hide L.IsLog;
    CleanStays([line]);
  }

  lemma HeadRewrites(head: string)
    requires IsHead(Diff, head)
    ensures RewriteAll(head + "7") == head + PLACEHOLDER == RewriteAll(head + PLACEHOLDER)
  {
    var a := head + "7";
    assert a == head + "7" + "" && head + PLACEHOLDER + "" == head + PLACEHOLDER;
    assert Matches(Diff, a, head, "7", "");
    hide IsHead, Rewrite, Matches;
    MatchIsFound(Diff, a, head, "7", "");
    RewrittenStays(Diff, head, "");
    RewrittenStays(Drift, head, "");
    RewrittenStays(Link, head, "");
  }

  lemma EndsInMark(b: string)
    requires b != "" && b[|b| - 1] == '>'
    ensures forall s, head, d :: !Matches(s, b, head, d, "")
  {
    hide IsHead;
    forall s, head, d ensures Matches(s, b, head, d, "") ==> IsDigit(b[|b| - 1]) {
      assert d != "" ==> (head + d + "")[|head + d| - 1] == d[|d| - 1];
    }
  }

  lemma ExampleHead(head: string)
    requires head == INDENT + "dns_id: 1" + Lead(Diff)
    ensures IsHead(Diff, head)
  {
    var body := INDENT + "dns_id: 1";
    assert head == body + Lead(Diff) && head[..|body|] == body && head[|body|..] == Lead(Diff);
    ExampleBody(body);
    assert '\n' !in body && '\n' !in Lead(Diff);
    hide OpensWithId;
  }

  lemma ExampleBody(body: string)
    requires body == INDENT + "dns_id: 1"
    ensures OpensWithId(body, ": ")
  {
    assert body[|INDENT|..] == "dns_id: 1" == "dns_id" + [':'] + " 1";
    FindFirst("dns_id", ':', " 1");
    hide Find;
    assert "dns_id: 1"[..6] == "dns_id" && "dns_id: 1"[6..] == ": 1";
    assert "dns_id"[3..] == "_id";
  }

  /** A preview is refused exactly when every line of it is blank or a log line. */
  lemma RefusedExactly(lines: seq<string>, hash: string -> string)
    ensures Fingerprint(lines, hash).None? <==> forall i :: 0 <= i < |Cleaned(lines)| ==> Strip(Cleaned(lines)[i]) == ""
  {
    hide Cleaned, RewriteAll, Strip;
    forall i | 0 <= i < |Cleaned(lines)| ensures Strip(RewriteAll(Cleaned(lines)[i])) == ""
        <==> Strip(Cleaned(lines)[i]) == "" {
      BlankStays(Cleaned(lines)[i]);
    }
    assert |Normal(lines)| == |Cleaned(lines)| && forall i :: 0 <= i < |Cleaned(lines)| ==>
           Normal(lines)[i] == RewriteAll(Cleaned(lines)[i]);
  }

  lemma {:induction false} StripOfText(s: string, i: nat)
    requires i < |s| && !IsSpace(s[i])
    ensures Strip(s) != ""
  {
    hide IsSpace;
    if IsSpace(s[0]) {
      StripOfText(s[1..], i - 1);
    } else {
      RStripOfText(s, 0);
    }
  }

  lemma {:induction false} RStripOfText(s: string, i: nat)
    requires i < |s| && !IsSpace(s[i])
    ensures RStrip(s) != ""
  {
    hide IsSpace;
    if IsSpace(s[|s| - 1]) {
      RStripOfText(s[..|s| - 1], i);
    }
  }

  lemma BlankStays(line: string)
    ensures Strip(RewriteAll(line)) == "" <==> Strip(line) == ""
  {
    hide Rewrite, Strip, IsHead, Core, Tail, DigitsStart;
    RewriteAllOne(line);
    if RewriteAll(line) != line {
      var s: Shape :| Rewrite(s, line) != line && RewriteAll(line) == Rewrite(s, line);
      RewriteExactly(s, line);
      var core := Core(line);
      var n := DigitsStart(core);
      MatchIsFound(s, line, core[..n], core[n..], Tail(line));
      SomeText(core[..n], core[n..], Tail(line));
      PlaceholderIsText(core[..n], Tail(line));
    }
  }

  lemma SomeText(head: string, digits: string, tail: string)
    requires AllDigits(digits)
    ensures Strip(head + digits + tail) != ""
  {
    var s := head + digits + tail;
    assert s[|head|] == digits[0];
    StripOfText(s, |head|);
  }

  lemma PlaceholderIsText(head: string, tail: string)
    ensures Strip(head + PLACEHOLDER + tail) != ""
  {
    var s := head + PLACEHOLDER + tail;
    assert s[|head|] == '<';
    StripOfText(s, |head|);
  }
}
