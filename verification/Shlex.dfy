/** `shlex.split` (POSIX mode, no comments) and `shlex.quote`: how a flag string becomes
    tokens, and how a value is written so that a shell reads it back unchanged. */
module Shlex {
  import opened Text

  /** Who reads the line: `shlex.split`, or a shell (section 2 of the POSIX Shell Command Language). */
  datatype Reader = Splitter | Shell

  /** `Acted`: a shell met something it does not take as text. */
  datatype Mode = Between | InWord | Quoted(mark: char) | Escaped(inDouble: bool) | Acted

  /** The word read so far, whether any part of it was quoted, and the finished words. */
  datatype Scan = Scan(mode: Mode, word: string, quoted: bool, done: seq<string>)

  const Start := Scan(Between, "", false, [])

  predicate IsBlank(d: Reader, c: char) {
    c == ' ' || c == '\t' || (d == Splitter && (c == '\r' || c == '\n'))
  }

  /** Operators, expansions, pattern characters and the end of the line: what a shell acts on when it
      stands outside quotes. */
  predicate IsActive(d: Reader, c: char) { d == Shell && c in "|&;<>()$`*?[\n" }

  /** What it acts on inside double quotes as well. */
  predicate IsActiveInDouble(d: Reader, c: char) { d == Shell && (c == '$' || c == '`') }

  /** What it acts on at the start of a word: a comment, a home directory. */
  predicate IsActiveFirst(d: Reader, c: char) { d == Shell && (c == '#' || c == '~') }

  /** The characters that mean something to the reader outside quotes. */
  predicate IsSpecial(d: Reader, c: char) { IsBlank(d, c) || c == '\'' || c == '"' || c == '\\' || IsActive(d, c) }

  /** Nothing in `text` is special to the reader. */
  predicate Ordinary(d: Reader, text: string) {
    forall i :: 0 <= i < |text| ==> !IsSpecial(d, text[i])
  }

  /** A text the reader takes as it stands when it begins a word. */
  predicate OrdinaryWord(d: Reader, text: string) {
    text != "" && !IsActiveFirst(d, text[0]) && Ordinary(d, text)
  }

  function Emit(s: Scan): Scan {
    if s.word != "" || s.quoted then Scan(Between, "", false, s.done + [s.word])
    else s.(mode := Between)
  }

  function Next(d: Reader, s: Scan, c: char): Scan {
    match s.mode
    case Between =>
      if IsBlank(d, c) then s
      else if IsActive(d, c) || IsActiveFirst(d, c) then s.(mode := Acted)
      else if c == '\\' then s.(mode := Escaped(false))
      else if c == '\'' || c == '"' then s.(mode := Quoted(c))
      else s.(mode := InWord, word := [c])
    case InWord =>
      if IsBlank(d, c) then Emit(s)
      else if IsActive(d, c) then s.(mode := Acted)
      else if c == '\\' then s.(mode := Escaped(false))
      else if c == '\'' || c == '"' then s.(mode := Quoted(c))
      else s.(word := s.word + [c])
    case Quoted(q) =>
      if c == q then s.(mode := InWord, quoted := true)
      else if c == '\\' && q == '"' then s.(mode := Escaped(true), quoted := true)
      else if q == '"' && IsActiveInDouble(d, c) then s.(mode := Acted)
      else s.(word := s.word + [c], quoted := true)
    case Escaped(inDouble) =>
      s.(mode := if inDouble then Quoted('"') else InWord, word := s.word + Unescaped(d, c, inDouble))
    case Acted => s
  }

  /** What a backslash and `c` leave: in double quotes only some characters lose it, and a shell drops
      an escaped line end. */
  function Unescaped(d: Reader, c: char, inDouble: bool): string {
    if d == Shell && c == '\n' then ""
    else if inDouble && c != '\\' && c != '"' && !IsActiveInDouble(d, c) then ['\\', c]
    else [c]
  }

  /** Marks are never blanks, and no reader acts on them. */
  lemma MarksAreMarks(d: Reader)
    ensures forall c :: c == '\'' || c == '"' || c == '\\' ==>
              !IsBlank(d, c) && !IsActive(d, c) && !IsActiveFirst(d, c) && !IsActiveInDouble(d, c) && IsSpecial(d, c)
    ensures IsBlank(d, ' ') && IsSpecial(d, ' ') && !IsActiveInDouble(d, ' ')
  {
  }

  function Run(d: Reader, s: Scan, text: string): Scan
    decreases |text|
  {
    if text == "" then s else Run(d, Next(d, s, text[0]), text[1..])
  }

  /** The words of `text`; nothing when a quotation or an escape is left open, or a shell acts on it. */
  function Words(d: Reader, text: string): Option<seq<string>> {
    WordsFrom(d, Start, text)
  }

  /** `shlex.quote`'s safe set: ASCII `[\w@%+=:,./-]`. */
  predicate IsPlain(c: char) {
    'a' <= c <= 'z' || 'A' <= c <= 'Z' || '0' <= c <= '9' || c in "_@%+=:,./-"
  }

  predicate AllPlain(s: string) { forall i :: 0 <= i < |s| ==> IsPlain(s[i]) }

  function EscapeQuotes(s: string): string {
    if s == "" then ""
    else (if s[0] == '\'' then "'\"'\"'" else [s[0]]) + EscapeQuotes(s[1..])
  }

  function Quote(s: string): string {
    if s == "" then "''"
    else if AllPlain(s) then s
    else "'" + EscapeQuotes(s) + "'"
  }

  lemma {:induction false} RunAppend(d: Reader, s: Scan, a: string, b: string)
    ensures Run(d, s, a + b) == Run(d, Run(d, s, a), b)
    decreases |a|
  {
    if a == "" {
      assert a + b == b;
    } else {
      assert (a + b)[1..] == a[1..] + b;
      RunAppend(d, Next(d, s, a[0]), a[1..], b);
    }
  }

  /** Outside quotes, ordinary characters are copied. */
  lemma {:induction false} RunOrdinary(d: Reader, s: Scan, text: string)
    requires s.mode.InWord?
    requires Ordinary(d, text)
    ensures Run(d, s, text) == s.(word := s.word + text)
    decreases |text|
  {
    MarksAreMarks(d);
    hide IsBlank, IsActive, IsActiveFirst, IsActiveInDouble;
    if text == "" {
      assert s.word + text == s.word;
    } else {
      RunOrdinary(d, Next(d, s, text[0]), text[1..]);
      assert s.word + [text[0]] + text[1..] == s.word + text;
    }
  }

  lemma {:induction false} RunEscaped(d: Reader, s: Scan, text: string)
    requires s.mode == Quoted('\'') && s.quoted
    ensures Run(d, s, EscapeQuotes(text)) == s.(word := s.word + text)
    decreases |text|
  {
    MarksAreMarks(d);
    hide IsBlank, IsActive, IsActiveFirst, IsActiveInDouble;
    if text == "" {
      assert s.word + text == s.word;
    } else {
      var head := if text[0] == '\'' then "'\"'\"'" else [text[0]];
      var s1 := s.(word := s.word + [text[0]]);
      if text[0] == '\'' {
        var a := Next(d, s, '\'');
        var b := Next(d, a, '"');
        var c := Next(d, b, '\'');
        var e := Next(d, c, '"');
        assert Next(d, e, '\'') == s1;
        assert head[1..] == "\"'\"'" && head[1..][1..] == "'\"'" && head[1..][1..][1..] == "\"'"
            && head[1..][1..][1..][1..] == "'" && head[1..][1..][1..][1..][1..] == "";
        assert Run(d, s, head) == Run(d, a, head[1..]) == Run(d, b, head[1..][1..]) == Run(d, c, head[1..][1..][1..])
            == Run(d, e, head[1..][1..][1..][1..]) == Run(d, s1, "");
      } else {
        assert head[1..] == "";
        assert Run(d, s, head) == Run(d, Next(d, s, head[0]), "");
      }
      assert Run(d, s, head) == s1;
      RunAppend(d, s, head, EscapeQuotes(text[1..]));
      RunEscaped(d, s1, text[1..]);
      assert s.word + [text[0]] + text[1..] == s.word + text;
    }
  }

  lemma PlainIsOrdinary(d: Reader, v: string)
    ensures AllPlain(v) ==> Ordinary(d, v)
    ensures AllPlain(v) && v != "" ==> OrdinaryWord(d, v)
  {
    forall i | 0 <= i < |v| && IsPlain(v[i]) ensures !IsSpecial(d, v[i]) && !IsActiveFirst(d, v[i])
        { PlainChar(d, v[i]); }
    hide IsPlain, IsSpecial, IsActiveFirst;
  }

  lemma PlainChar(d: Reader, c: char)
    requires IsPlain(c)
    ensures !IsSpecial(d, c) && !IsActiveFirst(d, c) && !IsBlank(d, c)
  {
  }

  /** A quoted value read in the middle of a word adds exactly that value to the word. */
  lemma RunQuote(d: Reader, s: Scan, v: string)
    requires s.mode.InWord?
    ensures var r := Run(d, s, Quote(v));
            r.mode.InWord? && r.word == s.word + v && r.done == s.done && (r.quoted || r == s.(word := s.word + v))
  {
    PlainIsOrdinary(d, v);
    MarksAreMarks(d);
    hide IsBlank, IsActive, IsActiveFirst, IsActiveInDouble;
    if v == "" {
      var a := Next(d, s, '\'');
      assert "''"[1..] == "'" && "'"[1..] == "";
      assert Run(d, s, "''") == Run(d, a, "'") == Run(d, Next(d, a, '\''), "");
      assert s.word + v == s.word;
    } else if AllPlain(v) {
      RunOrdinary(d, s, v);
    } else {
      RunQuotedBody(d, s, v);
    }
  }

  lemma RunQuotedBody(d: Reader, s: Scan, v: string)
    requires s.mode.InWord?
    ensures var r := Run(d, s, "'" + EscapeQuotes(v) + "'");
            r.mode.InWord? && r.word == s.word + v && r.done == s.done && r.quoted
  {
    MarksAreMarks(d);
    hide IsBlank, IsActive, IsActiveFirst, IsActiveInDouble;
    var body := EscapeQuotes(v);
    var open := Next(d, s, '\'');
    RunAppend(d, s, "'", body + "'");
    assert "'"[1..] == "";
    assert Run(d, s, "'") == Run(d, open, "");
    assert "'" + body + "'" == "'" + (body + "'");
    RunAppend(d, open, body, "'");
    RunBodyUnquoted(d, open, v);
    var inside := Run(d, open, body);
    assert Run(d, inside, "'") == Run(d, Next(d, inside, '\''), "");
  }

  /** The first character inside the quotation is what sets `quoted`. */
  lemma RunBodyUnquoted(d: Reader, s: Scan, v: string)
    requires s.mode == Quoted('\'')
    ensures var r := Run(d, s, EscapeQuotes(v));
            r.mode == Quoted('\'') && r.word == s.word + v && r.done == s.done
  {
    MarksAreMarks(d);
    hide IsBlank, IsActive, IsActiveFirst, IsActiveInDouble;
    QuotedFlagIrrelevant(d, s, EscapeQuotes(v));
    RunEscaped(d, s.(quoted := true), v);
  }

  /** Two scans that differ in the `quoted` mark alone still agree on the rest inside quotes
      as long as no word is finished. */
  lemma {:induction false} QuotedFlagIrrelevant(d: Reader, s: Scan, text: string)
    requires s.mode == Quoted('\'')
    ensures var t := s.(quoted := true);
            var r := Run(d, t, text);
            Run(d, s, text) == if text == "" then s else r
  {
    MarksAreMarks(d);
    hide IsBlank, IsActive, IsActiveFirst, IsActiveInDouble;
    if text != "" {
      assert Next(d, s, text[0]) == Next(d, s.(quoted := true), text[0]);
    }
  }

  /** One finished word: everything up to a blank. */
  lemma EmitWord(d: Reader, s: Scan)
    requires s.mode.InWord? && (s.word != "" || s.quoted)
    ensures Run(d, s, " ") == Scan(Between, "", false, s.done + [s.word])
  {
    MarksAreMarks(d);
    hide IsBlank, IsActive, IsActiveFirst, IsActiveInDouble;
    assert " "[1..] == "";
    assert Run(d, s, " ") == Run(d, Next(d, s, ' '), "");
  }

  /** Leaving `Between` on an ordinary character behaves like being inside an empty word. */
  lemma EnterWord(d: Reader, s: Scan, text: string)
    requires s.mode.Between? && s.word == ""
    requires text != "" && !IsBlank(d, text[0]) && !IsActiveFirst(d, text[0])
    ensures Run(d, s, text) == Run(d, s.(mode := InWord), text)
  {
    MarksAreMarks(d);
    hide IsBlank, IsActive, IsActiveFirst, IsActiveInDouble;
    assert Next(d, s, text[0]) == Next(d, s.(mode := InWord), text[0]);
  }

  function QuoteAll(words: seq<string>): seq<string> {
    seq(|words|, i requires 0 <= i < |words| => Quote(words[i]))
  }

  lemma QuoteStart(d: Reader, v: string)
    ensures Quote(v) != "" && !IsBlank(d, Quote(v)[0]) && !IsActiveFirst(d, Quote(v)[0])
  {
  }

  /** Reading a text that spells `words`, from a scan between words. */
  ghost predicate Spells(d: Reader, text: string, word: string) {
    && text != "" && !IsBlank(d, text[0]) && !IsActiveFirst(d, text[0])
    && forall done :: var r := Run(d, Scan(InWord, "", false, done), text);
                      r.mode.InWord? && r.word == word && r.done == done && (r.word != "" || r.quoted)
  }

  /** A line of space-separated texts, each spelling one word, splits into those words. */
  lemma {:induction false} RunSpelled(d: Reader, texts: seq<string>, words: seq<string>, done: seq<string>)
    requires |texts| == |words| > 0
    requires forall i :: 0 <= i < |texts| ==> Spells(d, texts[i], words[i])
    ensures var r := Run(d, Scan(Between, "", false, done), Join(texts, " "));
            r.mode.InWord? && (r.word != "" || r.quoted) && Emit(r).done == done + words
  {
    MarksAreMarks(d);
    hide IsBlank, IsActive, IsActiveFirst, IsActiveInDouble;
    var s := Scan(Between, "", false, done);
    EnterWord(d, s, texts[0]);
    var r := Run(d, s, texts[0]);
    if |texts| == 1 {
      assert words == [words[0]];
    } else {
      var rest := Join(texts[1..], " ");
      assert Join(texts, " ") == texts[0] + (" " + rest);
      RunAppend(d, s, texts[0], " " + rest);
      RunAppend(d, r, " ", rest);
      EmitWord(d, r);
      RunSpelled(d, texts[1..], words[1..], done + [words[0]]);
      assert done + [words[0]] + words[1..] == done + words;
    }
  }

  lemma SplitSpelled(d: Reader, texts: seq<string>, words: seq<string>)
    requires |texts| == |words|
    requires forall i :: 0 <= i < |texts| ==> Spells(d, texts[i], words[i])
    ensures Words(d, Join(texts, " ")) == Some(words)
  {
    if texts != [] {
      RunSpelled(d, texts, words, []);
      assert [] + words == words;
    }
  }

  lemma QuoteSpells(d: Reader, v: string)
    ensures Spells(d, Quote(v), v)
  {
    MarksAreMarks(d);
    hide IsBlank, IsActive, IsActiveFirst, IsActiveInDouble;
    QuoteStart(d, v);
    forall done
      ensures var r := Run(d, Scan(InWord, "", false, done), Quote(v));
              r.mode.InWord? && r.word == v && r.done == done && (r.word != "" || r.quoted)
    {
      var s := Scan(InWord, "", false, done);
      RunQuote(d, s, v);
      assert "" + v == v;
      if v == "" {
        var a := Next(d, s, '\'');
        assert "''"[1..] == "'" && "'"[1..] == "";
        assert Run(d, s, "''") == Run(d, a, "'") == Run(d, Next(d, a, '\''), "");
      }
    }
  }

  /** A quoted value after an ordinary prefix, as in `--flag='value'`. */
  lemma PrefixedQuoteSpells(d: Reader, head: string, v: string)
    requires OrdinaryWord(d, head)
    ensures Spells(d, head + Quote(v), head + v)
  {
    MarksAreMarks(d);
    hide IsBlank, IsActive, IsActiveFirst, IsActiveInDouble;
    hide Quote;
    forall done
      ensures var r := Run(d, Scan(InWord, "", false, done), head + Quote(v));
              r.mode.InWord? && r.word == head + v && r.done == done && (r.word != "" || r.quoted)
    {
      var s := Scan(InWord, "", false, done);
      RunAppend(d, s, head, Quote(v));
      RunOrdinary(d, s, head);
      assert "" + head == head;
      RunQuote(d, s.(word := head), v);
    }
  }

  /** The law `shlex.quote` is for: quoting each word and splitting the line gives the words back. */
  lemma SplitQuoted(d: Reader, words: seq<string>)
    ensures Words(d, Join(QuoteAll(words), " ")) == Some(words)
  {
    MarksAreMarks(d);
    hide IsBlank, IsActive, IsActiveFirst, IsActiveInDouble;
    forall i | 0 <= i < |words| ensures Spells(d, QuoteAll(words)[i], words[i]) {
      QuoteSpells(d, words[i]);
    }
    SplitSpelled(d, QuoteAll(words), words);
  }

  function Total(words: seq<string>): nat {
    if words == [] then 0 else |words[0]| + Total(words[1..])
  }

  lemma {:induction false} TotalAppend(a: seq<string>, b: string)
    ensures Total(a + [b]) == Total(a) + |b|
  {
    if a == [] {
      assert [] + [b] == [b];
    } else {
      assert (a + [b])[1..] == a[1..] + [b];
      TotalAppend(a[1..], b);
    }
  }

  function Held(s: Scan): nat {
    Total(s.done) + |s.word| + if s.mode == Escaped(true) then 1 else 0
  }

  lemma NextLoses(d: Reader, s: Scan, c: char)
    requires s.mode.Between? ==> s.word == ""
    ensures var n := Next(d, s, c);
            && (n.mode.Between? ==> n.word == "")
            && Held(n) <= Held(s) + 1
            && ((s.mode.InWord? || s.mode.Between?) ==> Held(n) <= Held(s) || (n.mode.InWord? && !IsSpecial(d, c)))
  {
    hide IsBlank, IsActive, IsActiveFirst, IsActiveInDouble, Total;
    TotalAppend(s.done, s.word);
    TotalOfNone();
  }

  lemma TotalOfNone()
    ensures Total([]) == 0
  {
  }

  /** Splitting never makes characters, and outside quotes a special one is always lost. */
  lemma {:induction false} RunLoses(d: Reader, s: Scan, text: string)
    requires s.mode.Between? ==> s.word == ""
    ensures Held(Run(d, s, text)) <= Held(s) + |text|
    ensures (s.mode.InWord? || s.mode.Between?) && !Ordinary(d, text) ==> Held(Run(d, s, text)) < Held(s) + |text|
    decreases |text|
  {
    if text != "" {
      var n := Next(d, s, text[0]);
      NextLoses(d, s, text[0]);
      RunLoses(d, n, text[1..]);
      if (s.mode.InWord? || s.mode.Between?) && !Ordinary(d, text) && !IsSpecial(d, text[0]) {
        var i :| 0 <= i < |text| && IsSpecial(d, text[i]);
        assert IsSpecial(d, text[1..][i - 1]);
      }
    }
  }

  /** What follows a word on the line. */
  function Tail(texts: seq<string>): string {
    if texts == [] then "" else " " + Join(texts, " ")
  }

  ghost predicate AllOrdinary(d: Reader, texts: seq<string>) {
    forall i :: 0 <= i < |texts| ==> OrdinaryWord(d, texts[i])
  }

  lemma OrdinarySpells(d: Reader, text: string)
    requires OrdinaryWord(d, text)
    ensures Spells(d, text, text)
  {
    MarksAreMarks(d);
    hide IsBlank, IsActive, IsActiveFirst, IsActiveInDouble;
    forall done
      ensures var r := Run(d, Scan(InWord, "", false, done), text);
              r.mode.InWord? && r.word == text && r.done == done && (r.word != "" || r.quoted)
    {
      RunOrdinary(d, Scan(InWord, "", false, done), text);
      assert "" + text == text;
    }
  }

  /** Ordinary texts after a scan that is not inside a quotation are read as themselves. */
  lemma RunTail(d: Reader, r: Scan, texts: seq<string>)
    requires r.mode.InWord? || (r.mode.Between? && r.word == "" && !r.quoted)
    requires AllOrdinary(d, texts)
    ensures var t := Run(d, r, Tail(texts));
            (t.mode.InWord? || t.mode.Between?) && Emit(t).done == Emit(r).done + texts
  {
    MarksAreMarks(d);
    hide IsBlank, IsActive, IsActiveFirst, IsActiveInDouble;
    if texts == [] {
      assert Emit(r).done + [] == Emit(r).done;
    } else {
      RunAppend(d, r, " ", Join(texts, " "));
      assert " "[1..] == "";
      assert Run(d, r, " ") == Run(d, Next(d, r, ' '), "");
      var b := Scan(Between, "", false, Emit(r).done);
      if r.word == "" && !r.quoted {
        assert Emit(r) == b;
      }
      assert Next(d, r, ' ') == b;
      forall i | 0 <= i < |texts| ensures Spells(d, texts[i], texts[i]) { OrdinarySpells(d, texts[i]); }
      RunSpelled(d, texts, texts, Emit(r).done);
    }
  }

  predicate QuoteFree(d: Reader, text: string) {
    forall i :: 0 <= i < |text| ==>
      text[i] != '\'' && text[i] != '"' && text[i] != '\\' && !IsActiveInDouble(d, text[i])
  }

  lemma {:induction false} RunInsideQuotes(d: Reader, r: Scan, text: string)
    requires r.mode.Quoted? && (r.mode.mark == '\'' || r.mode.mark == '"')
    requires QuoteFree(d, text)
    ensures Run(d, r, text).mode == r.mode
    decreases |text|
  {
    MarksAreMarks(d);
    hide IsBlank, IsActive, IsActiveFirst, IsActiveInDouble;
    if text != "" {
      RunInsideQuotes(d, Next(d, r, text[0]), text[1..]);
    }
  }

  lemma {:induction false} TailQuoteFree(d: Reader, texts: seq<string>)
    requires AllOrdinary(d, texts)
    ensures QuoteFree(d, Tail(texts))
  {
    if |texts| > 1 {
      TailQuoteFree(d, texts[1..]);
      assert Tail(texts) == " " + texts[0] + Tail(texts[1..]);
    } else if |texts| == 1 {
      assert Tail(texts) == " " + texts[0];
    }
  }

  lemma {:induction false} TotalConcat(a: seq<string>, b: seq<string>)
    ensures Total(a + b) == Total(a) + Total(b)
  {
    if b == [] {
      assert a + b == a;
    } else {
      var n := |b| - 1;
      TotalConcat(a, b[..n]);
      assert a + b == a + b[..n] + [b[n]] && b == b[..n] + [b[n]];
      TotalAppend(a + b[..n], b[n]);
      TotalAppend(b[..n], b[n]);
    }
  }

  /** A scan's marks are quotes: what reading a text always leaves true. */
  lemma {:induction false} RunKeepsShape(d: Reader, s: Scan, text: string)
    requires Shaped(s)
    ensures Shaped(Run(d, s, text))
    decreases |text|
  {
    MarksAreMarks(d);
    hide IsBlank, IsActive, IsActiveFirst, IsActiveInDouble;
    if text != "" {
      RunKeepsShape(d, Next(d, s, text[0]), text[1..]);
    }
  }

  predicate Shaped(s: Scan) {
    && (s.mode.Quoted? ==> s.mode.mark == '\'' || s.mode.mark == '"')
    && (s.mode.Between? ==> s.word == "" && !s.quoted)
  }

  /** The finished words of a whole text read from `s`. */
  function WordsFrom(d: Reader, s: Scan, text: string): Option<seq<string>> {
    var r := Run(d, s, text);
    match r.mode
    case Quoted(_) => None
    case Escaped(_) => None
    case Acted => None
    case _ => Some(Emit(r).done)
  }

  /** After `words` are finished, a raw text followed by ordinary ones is read as exactly
      those words if and only if the raw text is itself ordinary. */
  lemma RawWordExact(d: Reader, words: seq<string>, raw: string, texts: seq<string>)
    requires raw != "" && AllOrdinary(d, texts)
    ensures WordsFrom(d, Scan(Between, "", false, words), raw + Tail(texts)) == Some(words + [raw] + texts)
            <==> OrdinaryWord(d, raw)
  {
    MarksAreMarks(d);
    hide IsBlank, IsActive, IsActiveFirst, IsActiveInDouble;
    var s := Scan(Between, "", false, words);
    var r := Run(d, s, raw);
    RunAppend(d, s, raw, Tail(texts));
    RunKeepsShape(d, s, raw);
    if OrdinaryWord(d, raw) {
      EnterWord(d, s, raw);
      RunOrdinary(d, s.(mode := InWord), raw);
      assert "" + raw == raw;
      RunTail(d, r, texts);
    } else {
      RawWordLost(d, words, raw, texts);
    }
  }

  lemma RawWordLost(d: Reader, words: seq<string>, raw: string, texts: seq<string>)
    requires raw != "" && AllOrdinary(d, texts) && !OrdinaryWord(d, raw)
    ensures WordsFrom(d, Scan(Between, "", false, words), raw + Tail(texts)) != Some(words + [raw] + texts)
  {
    MarksAreMarks(d);
    hide IsBlank, IsActive, IsActiveFirst, IsActiveInDouble;
    var s := Scan(Between, "", false, words);
    var r := Run(d, s, raw);
    RunAppend(d, s, raw, Tail(texts));
    RunKeepsShape(d, s, raw);
    TailQuoteFree(d, texts);
    match r.mode
    case Acted => RunActed(d, r, Tail(texts));
    case Quoted(_) => RunInsideQuotes(d, r, Tail(texts));
    case Escaped(inDouble) =>
      if texts != [] {
        var rest := Join(texts, " ");
        assert Tail(texts)[1..] == rest;
        var e := Next(d, r, ' ');
        assert Run(d, r, Tail(texts)) == Run(d, e, rest);
        if inDouble {
          assert QuoteFree(d, rest) by { assert forall i :: 0 <= i < |rest| ==> rest[i] == Tail(texts)[i + 1]; }
          RunInsideQuotes(d, e, rest);
        } else {
          EscapedBlankJoins(d, r, texts);
          MergedWordsDiffer(r.done, r.word, words, raw, texts);
        }
      }
    case _ =>
      if IsActiveFirst(d, raw[0]) {
        ActedFirst(d, s, raw);
      }
      RunTail(d, r, texts);
      RunLoses(d, s, raw);
      EmitTotal(r);
      TotalConcat(Emit(r).done, texts);
      TotalConcat(words + [raw], texts);
      TotalAppend(words, raw);
  }

  lemma {:induction false} RunActed(d: Reader, s: Scan, text: string)
    requires s.mode.Acted?
    ensures Run(d, s, text) == s
    decreases |text|
  {
    if text != "" {
      RunActed(d, s, text[1..]);
    }
  }

  lemma ActedFirst(d: Reader, s: Scan, text: string)
    requires s.mode.Between? && text != "" && IsActiveFirst(d, text[0])
    ensures Run(d, s, text).mode.Acted?
  {
    RunActed(d, Next(d, s, text[0]), text[1..]);
  }

  lemma MergedWordsDiffer(done: seq<string>, word: string, words: seq<string>, raw: string, texts: seq<string>)
    requires texts != []
    ensures done + [word + " " + texts[0]] + texts[1..] != words + [raw] + texts
  {
    var found, wanted := done + [word + " " + texts[0]] + texts[1..], words + [raw] + texts;
    if |done| == |words| + 1 {
      assert found[|done|] == word + " " + texts[0] && wanted[|done|] == texts[0];
      assert |word + " " + texts[0]| > |texts[0]|;
    } else {
      assert |found| != |wanted|;
    }
  }

  lemma EmitTotal(r: Scan)
    requires r.mode.InWord? || r.mode.Between?
    ensures Total(Emit(r).done) == Held(r) || (r.word == "" && Total(Emit(r).done) == Total(r.done))
    ensures Total(Emit(r).done) <= Held(r)
  {
    TotalAppend(r.done, r.word);
  }

  /** A blank after a backslash is part of the word. */
  lemma EscapedBlankJoins(d: Reader, r: Scan, texts: seq<string>)
    requires r.mode == Escaped(false) && AllOrdinary(d, texts) && texts != []
    ensures WordsFrom(d, Next(d, r, ' '), Join(texts, " ")) == Some(r.done + [r.word + " " + texts[0]] + texts[1..])
  {
    MarksAreMarks(d);
    hide IsBlank, IsActive, IsActiveFirst, IsActiveInDouble;
    var e := Next(d, r, ' ');
    assert e == Scan(InWord, r.word + " ", r.quoted, r.done);
    assert Join(texts, " ") == texts[0] + Tail(texts[1..]) by {
      if |texts| > 1 {
        assert Join(texts, " ") == texts[0] + " " + Join(texts[1..], " ");
      }
    }
    RunAppend(d, e, texts[0], Tail(texts[1..]));
    RunOrdinary(d, e, texts[0]);
    RunTail(d, Run(d, e, texts[0]), texts[1..]);
  }

  /** A whole line: texts that spell `words`, one raw text, ordinary texts. Splitting gives back
      the words, the raw text and the ordinary texts exactly when the raw text is ordinary. */
  lemma RawInLineExact(d: Reader, spelled: seq<string>, words: seq<string>, raw: string, texts: seq<string>)
    requires |spelled| == |words|
    requires forall i :: 0 <= i < |spelled| ==> Spells(d, spelled[i], words[i])
    requires raw != "" && AllOrdinary(d, texts)
    ensures Words(d, Join(spelled + [raw] + texts, " ")) == Some(words + [raw] + texts) <==> OrdinaryWord(d, raw)
  {
    hide Run, Next, Spells, Ordinary, AllOrdinary;
    var rest := [raw] + texts;
    assert Join(rest, " ") == raw + Tail(texts) by {
      assert rest[1..] == texts;
    }
    if spelled == [] {
      assert spelled + [raw] + texts == rest;
      RawWordExact(d, [], raw, texts);
    } else {
      assert spelled + [raw] + texts == spelled + rest;
      JoinAppend(spelled, rest, " ");
      var head, line := Join(spelled, " ") + " ", Join(rest, " ");
      RunSpelledLine(d, spelled, words);
      RunAppend(d, Start, head, line);
      RawWordExact(d, words, raw, texts);
    }
  }

  lemma RunSpelledLine(d: Reader, spelled: seq<string>, words: seq<string>)
    requires |spelled| == |words| > 0
    requires forall i :: 0 <= i < |spelled| ==> Spells(d, spelled[i], words[i])
    ensures Run(d, Start, Join(spelled, " ") + " ") == Scan(Between, "", false, words)
  {
    MarksAreMarks(d);
    hide IsBlank, IsActive, IsActiveFirst, IsActiveInDouble;
    RunSpelled(d, spelled, words, []);
    assert [] + words == words;
    var r := Run(d, Start, Join(spelled, " "));
    RunAppend(d, Start, Join(spelled, " "), " ");
    EmitWord(d, r);
  }
}
