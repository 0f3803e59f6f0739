/** How a flag string may be written: every form `shlex.split` reads, and what each means. */
module ShlexLine {
  import opened Text
  import opened Shlex

  /** A character between double quotes: itself, or with a backslash in front. */
  datatype Inner = Char(c: char) | Slash(c: char)
  {
    ghost function Text(): string { if Char? then [c] else ['\\', c] }

    /** Between double quotes a backslash goes only before another one and before a double quote. */
    ghost function Meant(): string { if Char? || c == '\\' || c == '"' then [c] else ['\\', c] }

    ghost predicate Fits() { Char? ==> c != '\\' && c != '"' }
  }

  ghost function InnerText(inner: seq<Inner>): string {
    if inner == [] then "" else inner[0].Text() + InnerText(inner[1..])
  }

  ghost function InnerMeant(inner: seq<Inner>): string {
    if inner == [] then "" else inner[0].Meant() + InnerMeant(inner[1..])
  }

  /** A stretch of a word: a character as it stands, one behind a backslash, or a quotation of either kind. */
  datatype Stretch = Raw(c: char) | Escape(c: char) | Single(text: string) | Double(inner: seq<Inner>)
  {
    ghost function Text(): string {
      match this
      case Raw(c) => [c]
      case Escape(c) => ['\\', c]
      case Single(text) => "'" + text + "'"
      case Double(inner) => "\"" + InnerText(inner) + "\""
    }

    ghost function Meant(): string {
      match this
      case Raw(c) => [c]
      case Escape(c) => [c]
      case Single(text) => text
      case Double(inner) => InnerMeant(inner)
    }

    ghost predicate Fits() {
      match this
      case Raw(c) => c !in " \t\r\n" && c != '\'' && c != '"' && c != '\\'
      case Escape(_) => true
      case Single(text) => '\'' !in text
      case Double(inner) => forall i :: 0 <= i < |inner| ==> inner[i].Fits()
    }
  }

  /** A word is made of stretches, one at least, with nothing between them. */
  ghost predicate IsWord(word: seq<Stretch>) { word != [] && forall i :: 0 <= i < |word| ==> word[i].Fits() }

  ghost function WordText(word: seq<Stretch>): string {
    if word == [] then "" else word[0].Text() + WordText(word[1..])
  }

  ghost function WordMeant(word: seq<Stretch>): string {
    if word == [] then "" else word[0].Meant() + WordMeant(word[1..])
  }

  ghost predicate Blanks(s: string) { forall i :: 0 <= i < |s| ==> s[i] in " \t\r\n" }

  /** A line: words with blanks before each, and blanks behind the last; between words at least one. */
  datatype Piece = Piece(gap: string, word: seq<Stretch>)

  ghost function LineText(line: seq<Piece>, end: string): string {
    if line == [] then end else line[0].gap + (WordText(line[0].word) + LineText(line[1..], end))
  }

  ghost predicate IsLine(line: seq<Piece>, end: string) {
    && Blanks(end)
    && (forall i :: 0 <= i < |line| ==> Blanks(line[i].gap) && IsWord(line[i].word))
    && (forall i :: 0 < i < |line| ==> line[i].gap != "")
  }

  ghost function LineMeant(line: seq<Piece>): seq<string> {
    seq(|line|, i requires 0 <= i < |line| => WordMeant(line[i].word))
  }

  lemma BlankExactly(c: char)
    ensures IsBlank(Splitter, c) <==> c in " \t\r\n"
    ensures !IsActive(Splitter, c) && !IsActiveFirst(Splitter, c) && !IsActiveInDouble(Splitter, c)
    ensures !IsBlank(Splitter, '\'') && !IsBlank(Splitter, '"') && !IsBlank(Splitter, '\\')
  {
  }

  // -------------------------------------------------------------------------
  // One stretch
  // -------------------------------------------------------------------------

  lemma OneStep(s: Scan, c: char)
    ensures Run(Splitter, s, [c]) == Next(Splitter, s, c)
  {
    assert [c][1..] == "";
    assert Run(Splitter, s, [c]) == Run(Splitter, Next(Splitter, s, c), "");
  }

  lemma TwoSteps(s: Scan, b: char, c: char)
    ensures Run(Splitter, s, [b, c]) == Next(Splitter, Next(Splitter, s, b), c)
  {
    RunAppend(Splitter, s, [b], [c]);
    OneStep(s, b);
    OneStep(Next(Splitter, s, b), c);
    assert [b] + [c] == [b, c];
  }

  lemma InnerReads(s: Scan, x: Inner)
    requires s.mode == Quoted('"') && x.Fits()
    ensures var r := Run(Splitter, s, x.Text());
            r.mode == s.mode && r.word == s.word + x.Meant() && r.done == s.done
  {
    BlankExactly(x.c);
    hide IsBlank, IsActive, IsActiveFirst, IsActiveInDouble;
    if x.Char? {
      OneStep(s, x.c);
    } else {
      TwoSteps(s, '\\', x.c);
    }
  }

  lemma {:induction false} InnersRead(s: Scan, inner: seq<Inner>)
    requires s.mode == Quoted('"') && forall i :: 0 <= i < |inner| ==> inner[i].Fits()
    ensures var r := Run(Splitter, s, InnerText(inner));
            r.mode == s.mode && r.word == s.word + InnerMeant(inner) && r.done == s.done
    decreases |inner|
  {
    hide Next, Inner.Text, Inner.Meant, Inner.Fits;
    if inner == [] {
      assert s.word + "" == s.word;
    } else {
      InnerReads(s, inner[0]);
      var r := Run(Splitter, s, inner[0].Text());
      RunAppend(Splitter, s, inner[0].Text(), InnerText(inner[1..]));
      InnersRead(r, inner[1..]);
      hide Run;
      assert s.word + inner[0].Meant() + InnerMeant(inner[1..])
             == s.word + (inner[0].Meant() + InnerMeant(inner[1..]));
    }
  }

  lemma {:induction false} SinglesRead(s: Scan, text: string)
    requires s.mode == Quoted('\'') && '\'' !in text
    ensures var r := Run(Splitter, s, text); r.mode == s.mode && r.word == s.word + text && r.done == s.done
    decreases |text|
  {
    if text == "" {
      assert s.word + "" == s.word;
    } else {
      var n := Next(Splitter, s, text[0]);
      assert n.mode == s.mode && n.word == s.word + [text[0]] && n.done == s.done;
      SinglesRead(n, text[1..]);
      assert s.word + [text[0]] + text[1..] == s.word + text;
    }
  }

  /** From within a word a stretch adds what it means; the word is then there even when that is nothing. */
  ghost predicate Adds(s: Scan, r: Scan, meant: string) {
    r.mode.InWord? && r.word == s.word + meant && r.done == s.done && (r.word != "" || r.quoted)
  }

  lemma StretchReads(s: Scan, x: Stretch)
    requires s.mode.InWord? && x.Fits()
    ensures Adds(s, Run(Splitter, s, x.Text()), x.Meant())
  {
    match x
    case Raw(c) =>
      BlankExactly(c);
      OneStep(s, c);
    case Escape(c) =>
      BlankExactly(c);
      TwoSteps(s, '\\', c);
    case Single(text) =>
      QuotationReads(s, '\'', text, text);
    case Double(inner) =>
      QuotationReads(s, '"', InnerText(inner), InnerMeant(inner));
  }

  lemma QuotationReads(s: Scan, mark: char, text: string, meant: string)
    requires s.mode.InWord?
    requires || (mark == '\'' && text == meant && '\'' !in text)
             || (mark == '"' && exists inner: seq<Inner> :: text == InnerText(inner) && meant == InnerMeant(inner)
                                               && forall i :: 0 <= i < |inner| ==> inner[i].Fits())
    ensures Adds(s, Run(Splitter, s, [mark] + text + [mark]), meant)
  {
    BlankExactly(mark);
    hide IsBlank, IsActive, IsActiveFirst, IsActiveInDouble;
    var open := Next(Splitter, s, mark);
    assert open == s.(mode := Quoted(mark));
    if mark == '\'' {
      SinglesRead(open, text);
    } else {
      var inner: seq<Inner> :| text == InnerText(inner) && meant == InnerMeant(inner)
                   && forall i :: 0 <= i < |inner| ==> inner[i].Fits();
      InnersRead(open, inner);
    }
    var inside := Run(Splitter, open, text);
    OneStep(s, mark);
    OneStep(inside, mark);
    RunAppend(Splitter, s, [mark] + text, [mark]);
    RunAppend(Splitter, s, [mark], text);
    hide Run;
    assert Next(Splitter, inside, mark) == inside.(mode := InWord, quoted := true);
  }

  // -------------------------------------------------------------------------
  // Words and lines
  // -------------------------------------------------------------------------

  lemma {:induction false} WordReads(s: Scan, word: seq<Stretch>)
    requires s.mode.InWord? && IsWord(word)
    ensures Adds(s, Run(Splitter, s, WordText(word)), WordMeant(word))
    decreases |word|
  {
    hide Stretch.Fits, Stretch.Text, Stretch.Meant;
    var text, rest := word[0].Text(), word[1..];
    StretchReads(s, word[0]);
    var r := Run(Splitter, s, text);
    RunAppend(Splitter, s, text, WordText(rest));
    hide Run;
    assert s.word + word[0].Meant() + WordMeant(rest) == s.word + (word[0].Meant() + WordMeant(rest));
    if rest == [] {
      NothingMore(r);
      assert word[0].Meant() + "" == word[0].Meant();
    } else {
      WordReads(r, rest);
    }
  }

  lemma NothingMore(s: Scan)
    ensures Run(Splitter, s, "") == s && WordText([]) == "" && WordMeant([]) == ""
  {
  }

  lemma WordBegins(word: seq<Stretch>)
    requires IsWord(word)
    ensures WordText(word) != "" && !IsBlank(Splitter, WordText(word)[0]) && !IsActiveFirst(Splitter, WordText(word)[0])
  {
    var first := word[0].Text();
    assert first[0] == WordText(word)[0];
    BlankExactly(first[0]);
    hide IsBlank, IsActiveFirst, InnerText;
  }

  lemma {:induction false} BlanksSkipped(done: seq<string>, gap: string)
    requires Blanks(gap)
    ensures Run(Splitter, Scan(Between, "", false, done), gap) == Scan(Between, "", false, done)
    decreases |gap|
  {
    if gap != "" {
      BlankExactly(gap[0]);
      hide IsBlank;
      BlanksSkipped(done, gap[1..]);
    }
  }

  lemma BlanksEnd(s: Scan, gap: string)
    requires s.mode.InWord? && (s.word != "" || s.quoted) && Blanks(gap) && gap != ""
    ensures Run(Splitter, s, gap) == Scan(Between, "", false, s.done + [s.word])
  {
    BlankExactly(gap[0]);
    hide IsBlank, IsActive, IsActiveFirst;
    var after := Scan(Between, "", false, s.done + [s.word]);
    assert Next(Splitter, s, gap[0]) == after;
    BlanksSkipped(after.done, gap[1..]);
  }

  /** A line read from between words leaves its words, the last of them perhaps unfinished. */
  lemma {:induction false} LineRuns(done: seq<string>, line: seq<Piece>, end: string)
    requires IsLine(line, end)
    ensures var r := Run(Splitter, Scan(Between, "", false, done), LineText(line, end));
            (r.mode.Between? || r.mode.InWord?) && Emit(r).done == done + LineMeant(line)
    decreases |line|
  {
    var s := Scan(Between, "", false, done);
    if line == [] {
      BlanksSkipped(done, end);
      assert done + [] == done;
    } else {
      var first, rest, more := line[0], line[1..], LineText(line[1..], end);
      var meant := WordMeant(first.word);
      LineMeansFirst(line);
      LineRest(line, end);
      hide IsWord, Blanks;
      var r := PieceRuns(done, first, more);
      hide Run;
      assert done + [meant] + LineMeant(rest) == done + ([meant] + LineMeant(rest));
      if rest == [] && end == "" {
        NothingMore(r);
      } else {
        NextStarts(r, rest, end);
        LineRuns(done + [meant], rest, end);
      }
    }
  }

  lemma LineMeansFirst(line: seq<Piece>)
    requires line != []
    ensures LineMeant(line) == [WordMeant(line[0].word)] + LineMeant(line[1..])
    ensures LineMeant([]) == []
  {
    hide WordMeant;
  }

  lemma LineRest(line: seq<Piece>, end: string)
    requires IsLine(line, end) && line != []
    ensures IsLine(line[1..], end) && Blanks(line[0].gap) && IsWord(line[0].word) && Blanks(end)
    ensures LineText(line, end) == line[0].gap + (WordText(line[0].word) + LineText(line[1..], end))
    ensures line[1..] != [] ==> line[1].gap != "" && Blanks(line[1].gap)
  {
    hide IsWord, Blanks, WordText;
  }

  lemma PieceRuns(done: seq<string>, piece: Piece, more: string) returns (r: Scan)
    requires Blanks(piece.gap) && IsWord(piece.word)
    ensures Run(Splitter, Scan(Between, "", false, done), piece.gap + (WordText(piece.word) + more))
            == Run(Splitter, r, more)
    ensures r.mode.InWord? && r.word == WordMeant(piece.word) && r.done == done && (r.word != "" || r.quoted)
  {
    hide IsWord, WordText, WordMeant;
    var s := Scan(Between, "", false, done);
    RunAppend(Splitter, s, piece.gap, WordText(piece.word) + more);
    BlanksSkipped(done, piece.gap);
    RunAppend(Splitter, s, WordText(piece.word), more);
    WordBegins(piece.word);
    EnterWord(Splitter, s, WordText(piece.word));
    var inside := s.(mode := InWord);
    WordReads(inside, piece.word);
    r := Run(Splitter, inside, WordText(piece.word));
    hide Run;
    assert inside.word + WordMeant(piece.word) == WordMeant(piece.word);
  }

  /** Blanks end a word, whether they are the gap before the next one or what the line ends with. */
  lemma NextStarts(r: Scan, rest: seq<Piece>, end: string)
    requires r.mode.InWord? && (r.word != "" || r.quoted) && IsLine(rest, end) && Blanks(end)
    requires if rest == [] then end != "" else rest[0].gap != "" && Blanks(rest[0].gap)
    ensures Run(Splitter, r, LineText(rest, end))
            == Run(Splitter, Scan(Between, "", false, r.done + [r.word]), LineText(rest, end))
  {
    hide Blanks, IsWord, WordText;
    var gap := if rest == [] then end else rest[0].gap;
    var more := if rest == [] then "" else WordText(rest[0].word) + LineText(rest[1..], end);
    var s := Scan(Between, "", false, r.done + [r.word]);
    assert end + "" == end;
    assert LineText(rest, end) == gap + more;
    BlanksEnd(r, gap);
    BlanksSkipped(s.done, gap);
    RunAppend(Splitter, r, gap, more);
    RunAppend(Splitter, s, gap, more);
  }

  /** A line in any of these forms is split into what its words mean. */
  lemma LineSplits(line: seq<Piece>, end: string)
    requires IsLine(line, end)
    ensures Words(Splitter, LineText(line, end)) == Some(LineMeant(line))
  {
    LineRuns([], line, end);
    hide Run, IsLine, LineText, LineMeant;
    assert [] + LineMeant(line) == LineMeant(line);
  }

  // -------------------------------------------------------------------------
  // Lines that cannot be read
  // -------------------------------------------------------------------------

  /** A quotation left open, of either kind, or a backslash with nothing behind it, outside quotes or between
      double quotes, makes a line that could be read so far unreadable. */
  lemma OpenFails(text: string, inside: string, inner: seq<Inner>)
    requires Words(Splitter, text).Some?
    requires '\'' !in inside && forall i :: 0 <= i < |inner| ==> inner[i].Fits()
    ensures Words(Splitter, text + "'" + inside) == None
    ensures Words(Splitter, text + "\"" + InnerText(inner)) == None
    ensures Words(Splitter, text + "\"" + InnerText(inner) + "\\") == None
    ensures Words(Splitter, text + "\\") == None
  {
    var s := Run(Splitter, Start, text);
    QuoteOpens(s, '\'');
    QuoteOpens(s, '"');
    hide Next, Inner.Fits, InnerText, InnerMeant;
    Opened(text, '\'', inside);
    Opened(text, '"', InnerText(inner));
    SinglesRead(s.(mode := Quoted('\'')), inside);
    InnersRead(s.(mode := Quoted('"')), inner);
    EndsInSlash(text, s);
    var t := text + "\"" + InnerText(inner);
    EndsInSlash(t, Run(Splitter, Start, t));
  }

  lemma QuoteOpens(s: Scan, mark: char)
    requires (s.mode.Between? || s.mode.InWord?) && (mark == '\'' || mark == '"')
    ensures Next(Splitter, s, mark) == s.(mode := Quoted(mark))
  {
  }

  lemma Opened(text: string, mark: char, more: string)
    requires var s := Run(Splitter, Start, text); Next(Splitter, s, mark) == s.(mode := Quoted(mark))
    ensures Run(Splitter, Start, text + [mark] + more)
            == Run(Splitter, Run(Splitter, Start, text).(mode := Quoted(mark)), more)
  {
    hide Next;
    var s := Run(Splitter, Start, text);
    RunAppend(Splitter, Start, text, [mark]);
    RunAppend(Splitter, Start, text + [mark], more);
    OneStep(s, mark);
    hide Run;
  }

  lemma EndsInSlash(text: string, s: Scan)
    requires s == Run(Splitter, Start, text) && (s.mode.Between? || s.mode.InWord? || s.mode == Quoted('"'))
    ensures Words(Splitter, text + "\\") == None
  {
    RunAppend(Splitter, Start, text, "\\");
    OneStep(s, '\\');
    assert "\\" == ['\\'];
    hide Run;
  }

  /** What a text ends with that is left open. */
  datatype Open = Nothing | SingleOpen(text: string) | DoubleOpen(inner: seq<Inner>) | DoubleSlash(inner: seq<Inner>)
                | SlashOpen
  {
    ghost function Text(): string {
      match this
      case Nothing => ""
      case SingleOpen(text) => "'" + text
      case DoubleOpen(inner) => "\"" + InnerText(inner)
      case DoubleSlash(inner) => "\"" + InnerText(inner) + "\\"
      case SlashOpen => "\\"
    }

    ghost predicate Fits() {
      match this
      case SingleOpen(text) => '\'' !in text
      case DoubleOpen(inner) => forall i :: 0 <= i < |inner| ==> inner[i].Fits()
      case DoubleSlash(inner) => forall i :: 0 <= i < |inner| ==> inner[i].Fits()
      case _ => true
    }
  }

  lemma {:induction false} InnerMore(inner: seq<Inner>, x: Inner)
    ensures InnerText(inner + [x]) == InnerText(inner) + x.Text()
  {
    hide Inner.Text;
    if inner == [] {
      assert [] + [x] == [x] && [x][1..] == [] && InnerText([]) == "";
      assert x.Text() + "" == x.Text() && "" + x.Text() == x.Text();
    } else {
      InnerMore(inner[1..], x);
      assert (inner + [x])[1..] == inner[1..] + [x];
      assert inner[0].Text() + (InnerText(inner[1..]) + x.Text()) == inner[0].Text() + InnerText(inner[1..]) + x.Text();
    }
  }

  lemma {:induction false} WordMore(word: seq<Stretch>, x: Stretch)
    ensures WordText(word + [x]) == WordText(word) + x.Text()
  {
    hide Stretch.Text;
    if word == [] {
      assert [] + [x] == [x] && [x][1..] == [] && WordText([]) == "";
      assert x.Text() + "" == x.Text() && "" + x.Text() == x.Text();
    } else {
      WordMore(word[1..], x);
      assert (word + [x])[1..] == word[1..] + [x];
      assert word[0].Text() + (WordText(word[1..]) + x.Text()) == word[0].Text() + WordText(word[1..]) + x.Text();
    }
  }

  lemma {:induction false} EndMore(line: seq<Piece>, end: string, more: string)
    ensures LineText(line, end + more) == LineText(line, end) + more
  {
    hide WordText;
    if line != [] {
      EndMore(line[1..], end, more);
      var a, b := line[0].gap, WordText(line[0].word);
      assert a + (b + (LineText(line[1..], end) + more)) == a + (b + LineText(line[1..], end)) + more;
    }
  }

  /** A stretch behind a line: it goes on the last word, or begins one where blanks or nothing came before. */
  ghost function Extended(line: seq<Piece>, end: string, x: Stretch): seq<Piece> {
    if line != [] && end == "" then
      var n := |line| - 1;
      line[..n] + [Piece(line[n].gap, line[n].word + [x])]
    else line + [Piece(end, [x])]
  }

  lemma {:induction false} PieceMore(line: seq<Piece>, piece: Piece, end: string)
    ensures LineText(line + [piece], end) == LineText(line, piece.gap + (WordText(piece.word) + end))
  {
    hide WordText;
    if line == [] {
      assert [] + [piece] == [piece] && [piece][1..] == [];
    } else {
      PieceMore(line[1..], piece, end);
      assert (line + [piece])[1..] == line[1..] + [piece];
    }
  }

  lemma ExtendedText(line: seq<Piece>, end: string, x: Stretch)
    requires IsLine(line, end) && x.Fits()
    ensures LineText(Extended(line, end, x), "") == LineText(line, end) + x.Text() && IsLine(Extended(line, end, x), "")
  {
    hide WordText, LineText, Stretch.Text, Stretch.Fits;
    ExtendedFits(line, end, x);
    if line != [] && end == "" {
      var n := |line| - 1;
      var gap, word := line[n].gap, line[n].word;
      assert line == line[..n] + [line[n]] && line[n] == Piece(gap, word);
      WordMore(word, x);
      PieceMore(line[..n], Piece(gap, word), "");
      PieceMore(line[..n], Piece(gap, word + [x]), "");
      assert gap + (WordText(word) + x.Text() + "") == gap + (WordText(word) + "") + x.Text();
      EndMore(line[..n], gap + (WordText(word) + ""), x.Text());
    } else {
      PieceMore(line, Piece(end, [x]), "");
      WordMore([], x);
      EmptyWord();
      assert [] + [x] == [x] && "" + x.Text() == x.Text() && x.Text() + "" == x.Text();
      EndMore(line, end, x.Text());
    }
  }

  lemma EmptyWord()
    ensures WordText([]) == ""
  {
  }

  lemma ExtendedFits(line: seq<Piece>, end: string, x: Stretch)
    requires IsLine(line, end) && x.Fits()
    ensures IsLine(Extended(line, end, x), "")
  {
    hide Stretch.Fits;
  }

  ghost predicate Decomposed(text: string, line: seq<Piece>, end: string, open: Open) {
    IsLine(line, end) && open.Fits() && text == LineText(line, end) + open.Text()
  }

  /** One more character keeps a text in one of the forms, open or not. */
  lemma OneMore(text: string, line: seq<Piece>, end: string, open: Open, c: char)
    returns (line': seq<Piece>, end': string, open': Open)
    requires Decomposed(text, line, end, open)
    ensures Decomposed(text + [c], line', end', open')
  {
    hide LineText, InnerText, WordText, IsLine;
    var before := LineText(line, end);
    line', end', open' := line, end, open;
    match open {
      case Nothing =>
        assert before + "" == before;
        if c == '\'' {
          open' := SingleOpen("");
          assert "'" + "" == ['\''];
        } else if c == '"' {
          open' := DoubleOpen([]);
          NoInner();
          assert "\"" + "" == ['"'];
        } else if c == '\\' {
          open' := SlashOpen;
        } else if c in " \t\r\n" {
          end' := end + [c];
          EndMore(line, end, [c]);
          MoreBlank(line, end, c);
          assert before + [c] + "" == before + [c];
        } else {
          line', end' := Closed(line, end, Raw(c));
        }
      case SingleOpen(t) =>
        if c == '\'' {
          line', end' := Closed(line, end, Single(t));
          open' := Nothing;
          assert before + ("'" + t) + ['\''] == before + ("'" + t + "'");
        } else {
          open' := SingleOpen(t + [c]);
          assert before + ("'" + t) + [c] == before + ("'" + (t + [c]));
        }
      case DoubleOpen(inner) =>
        if c == '"' {
          line', end' := Closed(line, end, Double(inner));
          open' := Nothing;
          assert before + ("\"" + InnerText(inner)) + ['"'] == before + ("\"" + InnerText(inner) + "\"");
        } else if c == '\\' {
          open' := DoubleSlash(inner);
          assert before + ("\"" + InnerText(inner)) + ['\\'] == before + ("\"" + InnerText(inner) + "\\");
        } else {
          open' := DoubleOpen(inner + [Char(c)]);
          InnerMore(inner, Char(c));
          assert before + ("\"" + InnerText(inner)) + [c] == before + ("\"" + (InnerText(inner) + [c]));
        }
      case DoubleSlash(inner) =>
        open' := DoubleOpen(inner + [Slash(c)]);
        InnerMore(inner, Slash(c));
        assert before + ("\"" + InnerText(inner) + "\\") + [c] == before + ("\"" + (InnerText(inner) + ['\\', c]));
      case SlashOpen =>
        line', end' := Closed(line, end, Escape(c));
        open' := Nothing;
        assert before + "\\" + [c] == before + ['\\', c];
    }
  }

  lemma NoInner()
    ensures InnerText([]) == ""
  {
  }

  lemma MoreBlank(line: seq<Piece>, end: string, c: char)
    requires IsLine(line, end) && c in " \t\r\n"
    ensures IsLine(line, end + [c])
  {
    hide IsWord;
  }

  lemma Closed(line: seq<Piece>, end: string, x: Stretch) returns (line': seq<Piece>, end': string)
    requires IsLine(line, end) && x.Fits()
    ensures IsLine(line', end') && LineText(line', end') == LineText(line, end) + x.Text()
    ensures LineText(line', end') == LineText(line', end') + ""
  {
    ExtendedText(line, end, x);
    hide LineText, IsLine;
    line', end' := Extended(line, end, x), "";
    assert LineText(line', end') + "" == LineText(line', end');
  }

  /** Every text is a line in these forms with perhaps something left open at its end. */
  lemma {:induction false} EveryText(text: string) returns (line: seq<Piece>, end: string, open: Open)
    ensures Decomposed(text, line, end, open)
  {
    if text == "" {
      line, end, open := [], "", Nothing;
    } else {
      var n := |text| - 1;
      line, end, open := EveryText(text[..n]);
      assert text == text[..n] + [text[n]];
      hide Decomposed;
      line, end, open := OneMore(text[..n], line, end, open, text[n]);
    }
  }

  /** A text can be read exactly when it is a line with nothing left open, and then it is what its words mean. */
  lemma ReadableExactly(text: string)
    ensures Words(Splitter, text).Some? <==> exists line, end :: IsLine(line, end) && text == LineText(line, end)
    ensures forall line, end :: IsLine(line, end) && text == LineText(line, end) ==>
                                  Words(Splitter, text) == Some(LineMeant(line))
  {
    hide *;
    forall line, end | IsLine(line, end) && text == LineText(line, end)
      ensures Words(Splitter, text) == Some(LineMeant(line))
    {
      LineSplits(line, end);
    }
    var line, end, open := EveryText(text);
    WhatIsOpen(text, line, end, open);
  }

  lemma WhatIsOpen(text: string, line: seq<Piece>, end: string, open: Open)
    requires Decomposed(text, line, end, open)
    ensures IsLine(line, end)
    ensures open == Nothing ==> text == LineText(line, end)
    ensures open != Nothing ==> Words(Splitter, text) == None
  {
    LineSplits(line, end);
    hide LineText, IsLine, InnerText, Words, LineMeant;
    var before := LineText(line, end);
    assert before + "" == before;
    if open != Nothing {
      OpenNotRead(before, open);
    }
  }

  lemma OpenNotRead(text: string, open: Open)
    requires Words(Splitter, text).Some? && open.Fits() && open != Nothing
    ensures Words(Splitter, text + open.Text()) == None
  {
    hide Words, InnerText, Inner.Fits;
    match open
    case SingleOpen(t) =>
      OpenFails(text, t, []);
      Joins(text, "'", t);
    case DoubleOpen(inner) =>
      OpenFails(text, "", inner);
      Joins(text, "\"", InnerText(inner));
    case DoubleSlash(inner) =>
      OpenFails(text, "", inner);
      Joins(text, "\"", InnerText(inner));
      Joins(text, "\"" + InnerText(inner), "\\");
    case SlashOpen =>
      OpenFails(text, "", []);
  }

  lemma Joins(a: string, b: string, c: string)
    ensures a + b + c == a + (b + c)
  {
  }

  // -------------------------------------------------------------------------
  // What quoting writes
  // -------------------------------------------------------------------------

  lemma AlphabetExactly(upper: string, lower: string, rest: string, c: char)
    requires |upper| == |lower| == 26
    requires forall i :: 0 <= i < 26 ==> upper[i] as int == 'A' as int + i && lower[i] as int == 'a' as int + i
    requires rest == "0123456789_@%+=:,./-"
    ensures IsPlain(c) <==> c in upper || c in lower || c in rest
  {
    var safe := "_@%+=:,./-";
    assert rest[10..] == safe;
    assert forall i :: 0 <= i < 10 ==> rest[i] as int == '0' as int + i;
    if 'a' <= c <= 'z' {
      assert c == lower[c as int - 'a' as int];
    } else if 'A' <= c <= 'Z' {
      assert c == upper[c as int - 'A' as int];
    } else if '0' <= c <= '9' {
      assert c == rest[c as int - '0' as int];
    } else if c in safe {
      var i :| 0 <= i < |safe| && safe[i] == c;
      assert rest[10 + i] == c;
    }
  }

  /** The characters that are safe as they stand. */
  lemma PlainExactly(c: char)
    ensures IsPlain(c) <==> c in UPPER || c in LOWER || c in "0123456789_@%+=:,./-"
  {
    Alphabet();
    AlphabetExactly(UPPER, LOWER, "0123456789_@%+=:,./-", c);
    hide IsPlain;
  }

  /** A text of safe characters is written as it is, any other between single quotes, each single quote in it
      put between double quotes of its own. */
  lemma QuoteExactly(s: string)
    ensures s == "" ==> Quote(s) == "''"
    ensures s != "" && (forall i :: 0 <= i < |s| ==> IsPlain(s[i])) ==> Quote(s) == s
    ensures !(forall i :: 0 <= i < |s| ==> IsPlain(s[i])) ==>
              Quote(s) == "'" + Join(Split(s, '\''), "'\"'\"'") + "'"
  {
    EscapedJoins(s);
    hide IsPlain, EscapeQuotes, Join, Split;
  }

  lemma {:induction false} EscapedJoins(s: string)
    ensures EscapeQuotes(s) == Join(Split(s, '\''), "'\"'\"'")
  {
    if s != "" {
      EscapedJoins(s[1..]);
      var mark, rest := "'\"'\"'", Split(s[1..], '\'');
      if s[0] == '\'' {
        assert Split(s, '\'') == [""] + rest;
        assert ([""] + rest)[1..] == rest;
        assert "" + mark + Join(rest, mark) == mark + Join(rest, mark);
      } else {
        FirstExtended(s[0], rest, mark);
      }
    }
  }

  // -------------------------------------------------------------------------
  // What a shell does besides
  // -------------------------------------------------------------------------

  /** The characters a shell acts on, outside quotes, between double quotes too, and at the start of a word. */
  lemma ActiveExactly(c: char)
    ensures IsActive(Shell, c) <==> c in "|&;<>()$`*?[\n"
    ensures IsActiveInDouble(Shell, c) <==> c in "$`"
    ensures IsActiveFirst(Shell, c) <==> c in "#~"
    ensures IsBlank(Shell, c) <==> c in " \t"
  {
  }

  /** A shell takes no words from a line with one of these characters outside quotes, whatever else it holds. */
  lemma ShellActs(text: string, c: char, rest: string)
    requires Words(Shell, text).Some? && c in "|&;<>()$`*?[\n"
    ensures Words(Shell, text + [c] + rest) == None
  {
    ActiveExactly(c);
    hide IsActive, IsActiveInDouble, IsActiveFirst, IsBlank;
    ShellStep(Run(Shell, Start, text), c);
    RunAppend(Shell, Start, text, [c]);
    RunAppend(Shell, Start, text + [c], rest);
    RunActed(Shell, Run(Shell, Start, text + [c]), rest);
  }

  /** Nor from one that has a dollar sign or a backquote between double quotes. */
  lemma ShellActsInDouble(text: string, inside: string, c: char, rest: string)
    requires Words(Shell, text).Some? && c in "$`"
    requires forall i :: 0 <= i < |inside| ==> inside[i] !in "$`" && inside[i] != '"' && inside[i] != '\\'
    ensures Words(Shell, text + "\"" + inside + [c] + rest) == None
  {
    ActiveExactly(c);
    ActiveExactly('"');
    hide IsActive, IsActiveInDouble, IsActiveFirst, IsBlank;
    var s, open := Run(Shell, Start, text), text + "\"" + inside;
    ShellStep(s, '"');
    RunAppend(Shell, Start, text, "\"");
    assert "\"" == ['"'];
    ShellInside(s.(mode := Quoted('"')), inside);
    RunAppend(Shell, Start, text + "\"", inside);
    ShellStep(Run(Shell, Start, open), c);
    RunAppend(Shell, Start, open, [c]);
    RunAppend(Shell, Start, open + [c], rest);
    RunActed(Shell, Run(Shell, Start, open + [c]), rest);
  }

  lemma ShellStep(s: Scan, c: char)
    ensures Run(Shell, s, [c]) == Next(Shell, s, c)
  {
    assert [c][1..] == "";
    assert Run(Shell, s, [c]) == Run(Shell, Next(Shell, s, c), "");
  }

  lemma {:induction false} ShellInside(s: Scan, inside: string)
    requires s.mode == Quoted('"')
    requires forall i :: 0 <= i < |inside| ==> inside[i] !in "$`" && inside[i] != '"' && inside[i] != '\\'
    ensures Run(Shell, s, inside).mode == Quoted('"')
    decreases |inside|
  {
    if inside != "" {
      ActiveExactly(inside[0]);
      hide IsActiveInDouble;
      ShellInside(Next(Shell, s, inside[0]), inside[1..]);
    }
  }

  /** Behind a backslash a shell drops a line end; between double quotes the backslash itself goes only before
      another one, a double quote, a dollar sign and a backquote. */
  lemma ShellUnescapes(c: char)
    ensures Unescaped(Shell, '\n', false) == "" == Unescaped(Shell, '\n', true)
    ensures c != '\n' ==> Unescaped(Shell, c, false) == [c]
    ensures c != '\n' ==> Unescaped(Shell, c, true) == if c in "\\\"$`" then [c] else ['\\', c]
  {
  }
}
