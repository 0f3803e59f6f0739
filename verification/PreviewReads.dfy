/** The normal form of a preview in the literals of the patterns: which lines stay, and what a rewritten one reads. */
module PreviewReads {
  import opened Text
  import opened Selection
  import opened SeedPreview
  import L = LogLine

  // -------------------------------------------------------------------------
  // Which lines stay
  // -------------------------------------------------------------------------

  ghost predicate Dropped(line: string) { L.IsLog(RStripChar(line, '\r')) }

  /** Increasing positions list exactly the lines that are no log lines, and what is left is those lines
      without their trailing carriage returns. */
  ghost predicate Stays(at: seq<nat>, lines: seq<string>, left: seq<string>) {
    && |at| == |left| && (forall j, k :: 0 <= j < k < |at| ==> at[j] < at[k])
    && (forall j :: 0 <= j < |at| ==> at[j] < |lines| && left[j] == RStripChar(lines[at[j]], '\r'))
    && (forall i :: 0 <= i < |lines| ==> (i in at <==> !L.IsLog(RStripChar(lines[i], '\r'))))
  }

  lemma CleanedExactly(lines: seq<string>) returns (at: seq<nat>)
    ensures Stays(at, lines, Cleaned(lines))
  {
    hide L.IsLog, RStripChar, Cleaned, Kept;
    CleanedKept(lines);
    at := KeptAt(lines, line => !Dropped(line));
  }

  lemma {:induction false} CleanedKept(lines: seq<string>)
    ensures var kept := Kept(lines, line => !Dropped(line));
            && |Cleaned(lines)| == |kept|
            && forall j :: 0 <= j < |kept| ==> Cleaned(lines)[j] == RStripChar(kept[j], '\r')
  {
    hide L.IsLog, RStripChar;
    if lines != [] {
      CleanedKept(lines[..|lines| - 1]);
    }
  }

  lemma LastLine(lines: seq<string>)
    requires lines != []
    ensures var n := |lines| - 1;
            Cleaned(lines) == Cleaned(lines[..n]) + if Dropped(lines[n]) then [] else [RStripChar(lines[n], '\r')]
  {
    hide L.IsLog, RStripChar;
  }

  lemma {:induction false} CleanedAppend(x: seq<string>, y: seq<string>)
    ensures Cleaned(x + y) == Cleaned(x) + Cleaned(y)
  {
    hide L.IsLog, RStripChar;
    if y == [] {
      assert x + y == x;
    } else {
      var n := |y| - 1;
      CleanedAppend(x, y[..n]);
      LastLine(x + y);
      LastLine(y);
      assert (x + y)[..|x + y| - 1] == x + y[..n];
      hide Cleaned;
    }
  }

  lemma NormalAppend(x: seq<string>, y: seq<string>)
    ensures Normal(x + y) == Normal(x) + Normal(y)
  {
    CleanedAppend(x, y);
    hide Cleaned, RewriteAll;
  }

  lemma NormalOfOne(line: string)
    ensures Normal([line]) == if Dropped(line) then [] else [RewriteAll(RStripChar(line, '\r'))]
  {
    LastLine([line]);
    assert [line][..0] == [] && Cleaned([]) == [];
    hide L.IsLog, RStripChar, RewriteAll, Cleaned;
  }

  /** A log line anywhere in a preview changes nothing, and any other line is kept where it stands. */
  lemma LogLineVanishes(x: seq<string>, line: string, y: seq<string>)
    ensures Dropped(line) ==> Normal(x + [line] + y) == Normal(x + y)
    ensures !Dropped(line) ==> Normal(x + [line] + y) == Normal(x) + [RewriteAll(RStripChar(line, '\r'))] + Normal(y)
  {
    hide *;
    NormalAppend(x + [line], y);
    NormalAppend(x, [line]);
    NormalAppend(x, y);
    NormalOfOne(line);
  }

  lemma OutputsExactly(lines: seq<string>)
    ensures LinesOf(Missing) == [] && LinesOf(Lines(lines)) == lines
  {
  }

  // -------------------------------------------------------------------------
  // What a rewritten line reads
  // -------------------------------------------------------------------------

  /** An attribute name up to its `_id`. */
  ghost predicate Attribute(name: string) {
    name != "" && forall i :: 0 <= i < |name| ==> name[i] in LOWER || name[i] == '_'
  }

  lemma NameCharExactly(c: char)
    ensures NameChar(c) <==> c in LOWER || c == '_'
  {
    Alphabet();
    LowerLetters(LOWER, c);
  }

  lemma LowerLetters(lower: string, c: char)
    requires |lower| == 26 && forall i :: 0 <= i < 26 ==> lower[i] as int == 'a' as int + i
    ensures c in lower <==> 'a' <= c <= 'z'
  {
    if 'a' <= c <= 'z' {
      assert c == lower[c as int - 'a' as int];
    }
  }

  lemma IdNameExactly(name: string)
    ensures IdName(name) <==> exists front :: Attribute(front) && name == front + "_id"
  {
    hide NameChar;
    forall c: char ensures NameChar(c) <==> c in LOWER || c == '_' { NameCharExactly(c); }
    IdIsName();
    hide LOWER;
    if IdName(name) {
      var front := name[..|name| - 3];
      assert name == front + name[|name| - 3..];
    }
    forall front | Attribute(front) && name == front + "_id" ensures IdName(name) { NameWithId(front); }
  }

  lemma IdIsName()
    ensures NameChar('_') && NameChar('i') && NameChar('d')
  {
  }

  lemma NameWithId(front: string)
    requires Attribute(front) && forall c: char :: NameChar(c) <==> c in LOWER || c == '_'
    ensures IdName(front + "_id")
  {
    IdIsName();
    hide NameChar, LOWER;
    var name := front + "_id";
    assert name[|name| - 3..] == "_id";
    forall i | 0 <= i < |name| ensures NameChar(name[i]) {
      if i < |front| {
        assert name[i] == front[i];
      } else {
        assert name[i] == "_id"[i - |front|];
      }
    }
  }

  /** The text before an id, in each of the three places: after the arrow of a changed `_id` attribute, after
      the manifest's side of a drifted one, and behind a linked provision driver. */
  ghost predicate DiffHead(head: string, front: string, body: string) {
    Attribute(front) && head == "             " + front + "_id: " + body + " \U{2192} "
  }

  ghost predicate DriftHead(head: string, front: string, body: string) {
    Attribute(front) && head == "             " + front + "_id: database " + body + ", manifest "
  }

  ghost predicate LinkHead(head: string, body: string) {
    head == "  [link  ] " + body + " \U{2192} ProvisionDriver #"
  }

  ghost predicate SlotHead(head: string) {
    && '\n' !in head
    && ((exists front, body :: DiffHead(head, front, body)) || (exists front, body :: DriftHead(head, front, body))
        || exists body :: LinkHead(head, body))
  }

  lemma Regroup(indent: string, front: string, after: string, body: string, lead: string)
    ensures indent + front + ("_id" + after) + body + lead == indent + ((front + "_id") + (after + (body + lead)))
  {
    Assoc(indent + front + ("_id" + after), body, lead);
    Assoc(indent + front, "_id" + after, body + lead);
    Assoc(indent, front, ("_id" + after) + (body + lead));
    Assoc("_id", after, body + lead);
    Assoc(front, "_id", after + (body + lead));
  }

  lemma Literals()
    ensures INDENT == "             " && AfterName(Diff) == ": " && AfterName(Drift) == ": database "
    ensures "_id" + ": " == "_id: " && "_id" + ": database " == "_id: database "
    ensures Lead(Diff) == " \U{2192} " && Lead(Drift) == ", manifest " && Lead(Link) == " \U{2192} ProvisionDriver #"
    ensures LINK_OPENING == "  [link  ] " && PLACEHOLDER == "<id>"
  {
  }

  ghost predicate Piecewise(head: string, front: string, after: string, body: string, lead: string) {
    Attribute(front) && head == "             " + ((front + "_id") + (after + (body + lead)))
  }

  lemma AttributeHeads(head: string, after: string, lead: string)
    ensures (exists name, body :: IdName(name) && head == "             " + (name + (after + (body + lead))))
            <==> exists front, body :: Piecewise(head, front, after, body, lead)
  {
    hide IdName, Attribute;
    if name, body :| IdName(name) && head == "             " + (name + (after + (body + lead))) {
      IdNameExactly(name);
      var front :| Attribute(front) && name == front + "_id";
      assert Piecewise(head, front, after, body, lead);
    }
    if front, body :| Piecewise(head, front, after, body, lead) {
      IdNameExactly(front + "_id");
      assert IdName(front + "_id");
    }
  }

  lemma DiffHeadExactly(head: string)
    ensures IsHead(Diff, head) <==> '\n' !in head && exists front, body :: DiffHead(head, front, body)
  {
    hide *;
    HeadExactly(Diff, head);
    Literals();
    AttributeHeads(head, ": ", " \U{2192} ");
    forall front, body ensures DiffHead(head, front, body) <==> Piecewise(head, front, ": ", body, " \U{2192} ") {
      DiffPiecewise(head, front, body);
    }
  }

  lemma DiffPiecewise(head: string, front: string, body: string)
    ensures DiffHead(head, front, body) <==> Piecewise(head, front, ": ", body, " \U{2192} ")
  {
    hide Attribute;
    Literals();
    Regroup("             ", front, ": ", body, " \U{2192} ");
  }

  lemma DriftHeadExactly(head: string)
    ensures IsHead(Drift, head) <==> '\n' !in head && exists front, body :: DriftHead(head, front, body)
  {
    hide *;
    HeadExactly(Drift, head);
    Literals();
    AttributeHeads(head, ": database ", ", manifest ");
    forall front, body
      ensures DriftHead(head, front, body) <==> Piecewise(head, front, ": database ", body, ", manifest ")
    {
      DriftPiecewise(head, front, body);
    }
  }

  lemma DriftPiecewise(head: string, front: string, body: string)
    ensures DriftHead(head, front, body) <==> Piecewise(head, front, ": database ", body, ", manifest ")
  {
    hide Attribute;
    Literals();
    Regroup("             ", front, ": database ", body, ", manifest ");
  }

  lemma LinkHeadExactly(head: string)
    ensures IsHead(Link, head) <==> '\n' !in head && exists body :: LinkHead(head, body)
  {
    var lead := " \U{2192} ProvisionDriver #";
    Literals();
    hide Lead;
    if IsHead(Link, head) {
      var front := head[..|head| - |lead|];
      assert head == front + lead && front == "  [link  ] " + front[|"  [link  ] "|..];
      assert LinkHead(head, front[|"  [link  ] "|..]);
    }
    forall body | LinkHead(head, body) && '\n' !in head ensures IsHead(Link, head) {
      var front := "  [link  ] " + body;
      assert head[..|front|] == front && head[|front|..] == lead;
    }
  }

  lemma SlotHeadExactly(head: string)
    ensures SlotHead(head) <==> exists s: Shape :: IsHead(s, head)
  {
    hide *;
    DiffHeadExactly(head);
    DriftHeadExactly(head);
    LinkHeadExactly(head);
    SlotHeadIs(head);
    if s: Shape :| IsHead(s, head) {
      match s case Diff => case Drift => case Link =>
    }
  }

  lemma SlotHeadIs(head: string)
    ensures SlotHead(head) <==>
            || ('\n' !in head && exists front, body :: DiffHead(head, front, body))
            || ('\n' !in head && exists front, body :: DriftHead(head, front, body))
            || ('\n' !in head && exists body :: LinkHead(head, body))
  {
    hide DiffHead, DriftHead, LinkHead;
  }

  /** A line with an id in one of the three places, perhaps with a line feed behind it. */
  ghost predicate WithId(line: string, head: string, digits: string, tail: string) {
    line == head + digits + tail && SlotHead(head) && AllDigits(digits) && (tail == "" || tail == "\n")
  }

  /** An id in one of the three places becomes `<id>`; every other line stays as it is. */
  lemma RewriteAllExactly(line: string)
    ensures forall head, digits, tail :: WithId(line, head, digits, tail) ==> RewriteAll(line) == head + "<id>" + tail
    ensures (forall head, digits, tail :: !WithId(line, head, digits, tail)) ==> RewriteAll(line) == line
  {
    hide *;
    RewriteAllOne(line);
    Literals();
    forall head, digits, tail
      ensures WithId(line, head, digits, tail) <==> exists s: Shape :: Matches(s, line, head, digits, tail)
    {
      WithIdMatches(line, head, digits, tail);
    }
    forall head, digits, tail | WithId(line, head, digits, tail) ensures RewriteAll(line) == head + "<id>" + tail {
      var s: Shape :| Matches(s, line, head, digits, tail);
      MatchIsFound(s, line, head, digits, tail);
      MatchChanges(s, line, head, digits, tail);
    }
    if RewriteAll(line) != line {
      var s: Shape :| Rewrite(s, line) != line && RewriteAll(line) == Rewrite(s, line);
      RewriteExactly(s, line);
      var core := Core(line);
      assert WithId(line, core[..DigitsStart(core)], core[DigitsStart(core)..], Tail(line));
    }
  }

  lemma WithIdMatches(line: string, head: string, digits: string, tail: string)
    ensures WithId(line, head, digits, tail) <==> exists s: Shape :: Matches(s, line, head, digits, tail)
  {
    SlotHeadExactly(head);
    hide SlotHead, IsHead, AllDigits;
    if WithId(line, head, digits, tail) {
      var s: Shape :| IsHead(s, head);
      assert Matches(s, line, head, digits, tail);
    }
  }

  /** One line feed behind every line. */
  lemma DocumentExactly(line: string, rest: seq<string>)
    ensures Document([]) == "" && Document([line] + rest) == line + "\n" + Document(rest)
  {
    assert ([line] + rest)[1..] == rest && "\n" == ['\n'];
  }

  lemma BlankExactly(s: string)
    ensures Strip(s) == "" <==> AllSpaces(s)
  {
    if AllSpaces(s) {
      StripPadded(s, "", "");
      assert s + "" + "" == s;
    } else {
      var i :| 0 <= i < |s| && !IsSpace(s[i]);
      StripOfText(s, i);
    }
    hide Strip, IsSpace;
  }

  lemma {:induction false} ReturnsAreSpaces(s: string)
    ensures AllSpaces(RStripChar(s, '\r')) <==> AllSpaces(s)
  {
    if s != "" && s[|s| - 1] == '\r' {
      assert IsSpace('\r');
      ReturnsAreSpaces(s[..|s| - 1]);
      assert forall i :: 0 <= i < |s| - 1 ==> s[..|s| - 1][i] == s[i];
    }
  }

  /** A preview has no fingerprint exactly when each of its lines is a log line or nothing but whitespace. */
  lemma RefusedOnLines(lines: seq<string>, hash: string -> string)
    ensures Fingerprint(lines, hash).None? <==>
            forall i :: 0 <= i < |lines| ==> L.IsLog(RStripChar(lines[i], '\r')) || AllSpaces(lines[i])
  {
    hide *;
    var left := Cleaned(lines);
    var at := CleanedExactly(lines);
    RefusedExactly(lines, hash);
    forall i | 0 <= i < |lines| ensures Strip(RStripChar(lines[i], '\r')) == "" <==> AllSpaces(lines[i]) {
      BlankExactly(RStripChar(lines[i], '\r'));
      ReturnsAreSpaces(lines[i]);
    }
    BlankStaysBlank(at, lines, left);
  }

  lemma BlankStaysBlank(at: seq<nat>, lines: seq<string>, left: seq<string>)
    requires Stays(at, lines, left)
    ensures (forall j :: 0 <= j < |left| ==> Strip(left[j]) == "") <==>
            forall i :: 0 <= i < |lines| ==>
              L.IsLog(RStripChar(lines[i], '\r')) || Strip(RStripChar(lines[i], '\r')) == ""
  {
    hide L.IsLog, RStripChar, Strip;
    if forall j :: 0 <= j < |left| ==> Strip(left[j]) == "" {
      forall i | 0 <= i < |lines| && !L.IsLog(RStripChar(lines[i], '\r'))
        ensures Strip(RStripChar(lines[i], '\r')) == ""
      {
        assert i in at;
        var j :| 0 <= j < |at| && at[j] == i;
        assert left[j] == RStripChar(lines[i], '\r');
      }
    } else {
      var j :| 0 <= j < |left| && Strip(left[j]) != "";
      assert at[j] in at && left[j] == RStripChar(lines[at[j]], '\r');
    }
  }
}
