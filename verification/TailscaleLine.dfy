/** What a whole flag line means, spelling by spelling: the grammar `_ts_parse_args` reads. */
module TailscaleLine {
  import opened Text
  import opened TailscaleArgs

  /** The flags that are on by being there: they never take the word that follows. */
  const SWITCHES := ["accept-dns", "accept-routes", "ssh", "shields-up", "exit-node-allow-lan-access",
                     "advertise-exit-node", "snat-subnet-routes", "timeout", "authkey", "auth-key", "qr", "json",
                     "reset", "force-reauth"]

  lemma SwitchesExactly(name: string)
    ensures IsSwitch(name) <==> name in SWITCHES
    ensures IsSwitch(name) <==>
            || name == "accept-dns" || name == "accept-routes" || name == "ssh" || name == "shields-up"
            || name == "exit-node-allow-lan-access" || name == "advertise-exit-node" || name == "snat-subnet-routes"
            || name == "timeout" || name == "authkey" || name == "auth-key" || name == "qr" || name == "json"
            || name == "reset" || name == "force-reauth"
  {
    assert SWITCHES == BOOL_NAMES + ["advertise-exit-node", "snat-subnet-routes"] + IGNORED_NAMES;
  }

  /** One flag or word of a command line, as it may be written, any number of leading dashes included. */
  datatype Piece =
    | Plain(word: string)
    | Joined(dashes: nat, name: string, value: string)
    | Spaced(dashes: nat, name: string, value: string)
    | Bare(dashes: nat, name: string)
  {
    ghost function Tokens(): seq<string> {
      match this
      case Plain(word) => [word]
      case Joined(k, name, value) => [Repeat('-', k) + name + "=" + value]
      case Spaced(k, name, value) => [Repeat('-', k) + name, value]
      case Bare(k, name) => [Repeat('-', k) + name]
    }

    /** What the piece says: a flag left bare is "true" for a switch and empty for any other. */
    ghost function Meant(): Item {
      match this
      case Plain(word) => Word(word)
      case Joined(_, name, value) => Flag(name, value, Tokens())
      case Spaced(_, name, value) => Flag(name, value, Tokens())
      case Bare(_, name) => Flag(name, if name in SWITCHES then "true" else "", Tokens())
    }

    /** A word does not begin with a dash, a flag does and its name does not; only a flag that is no
        switch takes the next word for its value, and it takes it whenever there is one. */
    ghost predicate Fits(after: seq<string>) {
      match this
      case Plain(word) => !StartsWith(word, "-")
      case Joined(k, name, _) => k > 0 && !StartsWith(name, "-") && '=' !in name
      case Spaced(k, name, value) =>
        && k > 0 && !StartsWith(name, "-") && '=' !in name
        && name !in SWITCHES && !StartsWith(value, "-")
      case Bare(k, name) =>
        && k > 0 && !StartsWith(name, "-") && '=' !in name
        && (name in SWITCHES || after == [] || StartsWith(after[0], "-"))
    }
  }

  ghost function Written(pieces: seq<Piece>): seq<string> {
    if pieces == [] then [] else pieces[0].Tokens() + Written(pieces[1..])
  }

  ghost predicate WellWritten(pieces: seq<Piece>) {
    pieces != [] ==> pieces[0].Fits(Written(pieces[1..])) && WellWritten(pieces[1..])
  }

  ghost function Meanings(pieces: seq<Piece>): seq<Item> {
    seq(|pieces|, i requires 0 <= i < |pieces| => pieces[i].Meant())
  }

  lemma DashMeansFlag(s: string)
    ensures IsFlag(s) <==> StartsWith(s, "-")
  {
  }

  lemma DashedToken(k: nat, name: string, value: string)
    requires k > 0 && !IsFlag(name) && '=' !in name
    ensures var t := Repeat('-', k) + name;
            IsFlag(t) && FlagName(t) == name && FlagValue(t) == None
    ensures var t := Repeat('-', k) + name + "=" + value;
            IsFlag(t) && FlagName(t) == name && FlagValue(t) == Some(value)
  {
    var bare, full := Repeat('-', k) + name, Repeat('-', k) + name + "=" + value;
    assert bare[0] == '-' && full[0] == '-';
    hide Repeat, LStripChar;
    LStripCharExactly('-', k, name);
    LStripCharExactly('-', k, name + "=" + value);
    assert full == Repeat('-', k) + (name + "=" + value);
    FindFacts(name, '=');
    NameThenValue(name, value);
    hide Find;
  }

  /** One piece at the head of a line is read for what it means, whatever follows it. */
  lemma PieceReads(piece: Piece, after: seq<string>)
    requires piece.Fits(after)
    ensures FirstItem(piece.Tokens() + after) == piece.Meant() && piece.Meant().Spelled() == piece.Tokens()
  {
    var tokens := piece.Tokens() + after;
    hide Repeat, FlagName, FlagValue, IsSwitch, IsFlag, SWITCHES;
    DashMeansFlag(tokens[0]);
    assert tokens[..|piece.Tokens()|] == piece.Tokens();
    if !piece.Plain? {
      SwitchesExactly(piece.name);
      DashMeansFlag(piece.name);
      DashedToken(piece.dashes, piece.name, if piece.Bare? then "" else piece.value);
      if piece.Spaced? {
        DashMeansFlag(piece.value);
        assert tokens[1] == piece.value;
      } else if after != [] {
        DashMeansFlag(after[0]);
        assert tokens[1] == after[0];
      }
    }
  }

  lemma HeadRead(piece: Piece, after: seq<string>)
    requires piece.Fits(after)
    ensures Items(piece.Tokens() + after) == [piece.Meant()] + Items(after)
  {
    PieceReads(piece, after);
    OneOrMore(piece);
    hide *;
    var n := |piece.Tokens()|;
    ItemsStep(piece.Tokens() + after, n);
    assert (piece.Tokens() + after)[n..] == after;
  }

  lemma OneOrMore(piece: Piece)
    ensures piece.Tokens() != []
  {
  }

  /** A well written line is read piece by piece. */
  lemma {:induction false} LineReads(pieces: seq<Piece>)
    requires WellWritten(pieces)
    ensures Items(Written(pieces)) == Meanings(pieces)
  {
    hide Items, Piece.Tokens, Piece.Meant, Piece.Fits;
    if pieces == [] {
      NothingRead("");
    } else {
      LineReads(pieces[1..]);
      HeadRead(pieces[0], Written(pieces[1..]));
      assert Meanings(pieces) == [pieces[0].Meant()] + Meanings(pieces[1..]);
    }
  }

  // -------------------------------------------------------------------------
  // Every line is written in some way
  // -------------------------------------------------------------------------

  lemma {:induction false} DashesThenBody(s: string)
    ensures var body := LStripChar(s, '-');
            && |body| <= |s| && !StartsWith(body, "-")
            && s == Repeat('-', |s| - |body|) + body
            && (StartsWith(s, "-") ==> |body| < |s|)
  {
    var body := LStripChar(s, '-');
    if s != "" && s[0] == '-' {
      DashesThenBody(s[1..]);
      var k := |s[1..]| - |body|;
      assert Repeat('-', k + 1) == ['-'] + Repeat('-', k);
      hide Repeat, LStripChar;
      assert s == ['-'] + s[1..];
      assert ['-'] + (Repeat('-', k) + body) == ['-'] + Repeat('-', k) + body;
    } else {
      assert Repeat('-', 0) == "";
    }
  }

  lemma FlagWritten(token: string)
    requires IsFlag(token)
    ensures !StartsWith(FlagName(token), "-") && '=' !in FlagName(token)
    ensures exists k: nat :: k > 0 && token == Repeat('-', k) + FlagName(token)
                                           + if FlagValue(token).Some? then "=" + FlagValue(token).value else ""
  {
    DashesThenBody(token);
    hide LStripChar, Repeat;
    var body := LStripChar(token, '-');
    var k, i := |token| - |body|, Find(body, '=');
    FindFacts(body, '=');
    hide Find;
    assert body == body[..i] + body[i..];
    if i < |body| {
      assert body[i..] == "=" + body[i + 1..];
    }
    assert k > 0 && token == Repeat('-', k) + (body[..i] + body[i..]);
    assert Repeat('-', k) + (body[..i] + body[i..]) == Repeat('-', k) + body[..i] + body[i..];
  }

  lemma FirstPiece(tokens: seq<string>) returns (piece: Piece, n: nat)
    requires tokens != []
    ensures n <= |tokens| && 0 < n && piece.Tokens() == tokens[..n] && piece.Fits(tokens[n..])
  {
    var t := tokens[0];
    hide Repeat, FlagName, FlagValue, SWITCHES, IsFlag, IsSwitch;
    forall s ensures IsFlag(s) <==> StartsWith(s, "-") { DashMeansFlag(s); }
    if !IsFlag(t) {
      return Plain(t), 1;
    }
    FlagWritten(t);
    SwitchesExactly(FlagName(t));
    var k: nat :| k > 0 && t == Repeat('-', k) + FlagName(t)
                                + if FlagValue(t).Some? then "=" + FlagValue(t).value else "";
    if FlagValue(t).Some? {
      assert t == Repeat('-', k) + FlagName(t) + "=" + FlagValue(t).value;
      return Joined(k, FlagName(t), FlagValue(t).value), 1;
    } else if !IsSwitch(FlagName(t)) && |tokens| > 1 && !IsFlag(tokens[1]) {
      assert t == Repeat('-', k) + FlagName(t);
      return Spaced(k, FlagName(t), tokens[1]), 2;
    } else {
      assert t == Repeat('-', k) + FlagName(t);
      return Bare(k, FlagName(t)), 1;
    }
  }

  /** No command line is outside the grammar: each is written out of pieces. */
  lemma {:induction false} EveryLine(tokens: seq<string>) returns (pieces: seq<Piece>)
    ensures WellWritten(pieces) && Written(pieces) == tokens
    decreases |tokens|
  {
    if tokens == [] {
      return [];
    }
    var piece, n := FirstPiece(tokens);
    var rest := EveryLine(tokens[n..]);
    pieces := [piece] + rest;
    assert pieces[1..] == rest && tokens == tokens[..n] + tokens[n..];
    hide Piece.Fits, Piece.Tokens;
  }

  // -------------------------------------------------------------------------
  // The dictionary of a line
  // -------------------------------------------------------------------------

  lemma {:induction false} LastValueAt(items: seq<Item>, i: nat)
    requires i < |items| && items[i].Flag?
    requires forall j :: i < j < |items| && items[j].Flag? ==> items[j].name != items[i].name
    ensures LastValue(items, items[i].name) == Some(items[i].value)
  {
    var n := |items| - 1;
    if i < n {
      assert items[..n][i] == items[i];
      LastValueAt(items[..n], i);
    }
  }

  lemma {:induction false} NeverNamed(items: seq<Item>, name: string)
    ensures LastValue(items, name).None? <==> forall i :: 0 <= i < |items| && items[i].Flag? ==> items[i].name != name
  {
    if items != [] {
      var n := |items| - 1;
      NeverNamed(items[..n], name);
      assert forall i :: 0 <= i < n ==> items[..n][i] == items[i];
    }
  }

  /** Where the words of the line are, in order. */
  ghost predicate Lists(at: seq<nat>, items: seq<Item>, words: seq<string>) {
    && |at| == |words| && (forall j, k :: 0 <= j < k < |at| ==> at[j] < at[k])
    && (forall j :: 0 <= j < |at| ==> at[j] < |items| && items[at[j]] == Word(words[j]))
    && (forall i :: 0 <= i < |items| && items[i].Word? ==> i in at)
  }

  lemma {:induction false} WordsListed(items: seq<Item>) returns (at: seq<nat>)
    ensures Lists(at, items, Words(items))
  {
    if items == [] {
      return [];
    }
    var n := |items| - 1;
    at := WordsListed(items[..n]);
    assert forall i :: 0 <= i < n ==> items[..n][i] == items[i];
    hide Words;
    LastWord(items);
    if items[n].Word? {
      ListedSnoc(at, items, Words(items[..n]));
      at := at + [n];
    }
  }

  lemma LastWord(items: seq<Item>)
    requires items != []
    ensures var n := |items| - 1;
            Words(items) == Words(items[..n]) + if items[n].Word? then [items[n].token] else []
  {
  }

  lemma ListedSnoc(at: seq<nat>, items: seq<Item>, words: seq<string>)
    requires items != [] && items[|items| - 1].Word? && Lists(at, items[..|items| - 1], words)
    ensures Lists(at + [|items| - 1], items, words + [items[|items| - 1].token])
  {
    var n := |items| - 1;
    var longer := at + [n];
    assert forall i :: 0 <= i < n ==> items[..n][i] == items[i];
    forall i | 0 <= i < |items| && items[i].Word? ensures i in longer {
      if i < n {
        assert items[..n][i].Word? && i in at;
      } else {
        assert longer[|at|] == n;
      }
    }
  }

  /** Some word comes after a flag named like the list the words are kept in. */
  ghost predicate WordAfterReserved(items: seq<Item>) {
    exists i, j :: 0 <= i < j < |items| && items[i].Flag? && items[i].name == "_positional" && items[j].Word?
  }

  lemma LastReserved(items: seq<Item>)
    requires items != []
    ensures var n := |items| - 1;
            WordAfterReserved(items) <==>
              WordAfterReserved(items[..n]) || (items[n].Word? && LastValue(items[..n], "_positional").Some?)
  {
    var n := |items| - 1;
    NeverNamed(items[..n], "_positional");
    hide LastValue;
    assert forall i :: 0 <= i < n ==> items[..n][i] == items[i];
  }

  /** The parser fails on a word after a flag `_positional` and on nothing else; otherwise every flag
      has its last value, that one included. */
  lemma {:induction false} CollectValues(items: seq<Item>)
    ensures Collect(items).Err? <==> WordAfterReserved(items)
    ensures Collect(items).Err? ==> Collect(items) == Err(AppendToText)
    ensures Collect(items).Ok? ==>
              && (forall n :: LastValue(items, n).Some? ==>
                    n in Collect(items).value && Collect(items).value[n] == Value(LastValue(items, n).value))
              && (forall n :: n in Collect(items).value && n != "_positional" ==> LastValue(items, n).Some?)
              && ("_positional" in Collect(items).value && LastValue(items, "_positional").None? ==>
                    Collect(items).value["_positional"].Positionals?)
  {
    if items != [] {
      var n := |items| - 1;
      CollectValues(items[..n]);
      LastReserved(items);
      hide WordAfterReserved;
    }
  }

  /** A line has no dictionary exactly when a word comes after a flag `_positional`. */
  lemma LineFails(pieces: seq<Piece>)
    requires WellWritten(pieces)
    ensures ParseArgs(Written(pieces)).Err? <==>
            exists i, j ::
              0 <= i < j < |pieces| && !pieces[i].Plain? && pieces[i].name == "_positional" && pieces[j].Plain?
  {
    hide Items, Written, WellWritten, Collect, Meanings, WordAfterReserved;
    LineReads(pieces);
    CollectValues(Meanings(pieces));
    MeantReserved(pieces);
  }

  /** The dictionary of a line holds the names of its flags, each with what its last piece says. */
  lemma LineFlags(pieces: seq<Piece>)
    requires WellWritten(pieces) && ParseArgs(Written(pieces)).Ok?
    ensures var flags := ParseArgs(Written(pieces)).value;
            && (forall n :: n in flags && n != "_positional" ==>
                  exists i :: 0 <= i < |pieces| && !pieces[i].Plain? && pieces[i].name == n)
            && (forall i :: 0 <= i < |pieces| && LastNamed(pieces, i) ==>
                  pieces[i].name in flags && flags[pieces[i].name] == Value(pieces[i].Meant().value))
  {
    hide *;
    LineCollected(pieces);
    CollectValues(Meanings(pieces));
    forall n ensures LastValue(Meanings(pieces), n).Some? ==>
                       exists i :: 0 <= i < |pieces| && !pieces[i].Plain? && pieces[i].name == n
    {
      MeantNamed(pieces, n);
    }
    forall i | 0 <= i < |pieces| && LastNamed(pieces, i)
      ensures !pieces[i].Plain? && pieces[i].Meant().Flag?
      ensures LastValue(Meanings(pieces), pieces[i].name) == Some(pieces[i].Meant().value)
    {
      MeantLast(pieces, i);
    }
  }

  lemma LineCollected(pieces: seq<Piece>)
    requires WellWritten(pieces)
    ensures ParseArgs(Written(pieces)) == Collect(Meanings(pieces))
  {
    LineReads(pieces);
    hide Items, Collect;
  }

  lemma MeantNamed(pieces: seq<Piece>, name: string)
    ensures LastValue(Meanings(pieces), name).Some? ==>
              exists i :: 0 <= i < |pieces| && !pieces[i].Plain? && pieces[i].name == name
  {
    var items := Meanings(pieces);
    NeverNamed(items, name);
    hide LastValue;
    if LastValue(items, name).Some? {
      var i :| 0 <= i < |items| && items[i].Flag? && items[i].name == name;
      assert items[i] == pieces[i].Meant();
    }
  }

  lemma MeantLast(pieces: seq<Piece>, i: nat)
    requires i < |pieces| && LastNamed(pieces, i)
    ensures !pieces[i].Plain? && pieces[i].Meant().Flag?
    ensures LastValue(Meanings(pieces), pieces[i].name) == Some(pieces[i].Meant().value)
  {
    LastValueAt(Meanings(pieces), i);
    hide LastValue;
  }

  /** The words of a line are kept in order; there is no entry for them when there are none. */
  lemma LineWords(pieces: seq<Piece>) returns (at: seq<nat>)
    requires WellWritten(pieces) && NoneReserved(pieces)
    ensures ParseArgs(Written(pieces)).Ok?
    ensures var flags := ParseArgs(Written(pieces)).value;
            && ("_positional" in flags <==> at != [])
            && (at != [] ==> flags["_positional"].Positionals?)
            && Lists(at, Meanings(pieces), if at == [] then [] else flags["_positional"].words)
  {
    var items := Meanings(pieces);
    LineReads(pieces);
    hide Items, Written, WellWritten, Piece.Tokens, ParseArgs, LastValue, Words;
    ParseFaithful(Written(pieces));
    assert NoReserved(items);
    at := WordsListed(items);
    hide Lists;
    WordsThere(at, items, Words(items));
  }

  lemma WordsThere(at: seq<nat>, items: seq<Item>, words: seq<string>)
    requires Lists(at, items, words)
    ensures words == [] <==> at == []
  {
  }

  ghost predicate LastNamed(pieces: seq<Piece>, i: nat)
    requires i < |pieces|
  {
    !pieces[i].Plain? && forall j :: i < j < |pieces| && !pieces[j].Plain? ==> pieces[j].name != pieces[i].name
  }

  ghost predicate NoneReserved(pieces: seq<Piece>) {
    forall i :: 0 <= i < |pieces| && !pieces[i].Plain? ==> pieces[i].name != "_positional"
  }

  lemma MeantReserved(pieces: seq<Piece>)
    ensures WordAfterReserved(Meanings(pieces)) <==>
            exists i, j ::
              0 <= i < j < |pieces| && !pieces[i].Plain? && pieces[i].name == "_positional" && pieces[j].Plain?
  {
    var items := Meanings(pieces);
    assert forall i :: 0 <= i < |pieces| ==> items[i] == pieces[i].Meant();
    if i, j :| 0 <= i < j < |pieces| && !pieces[i].Plain? && pieces[i].name == "_positional" && pieces[j].Plain? {
      assert items[i].Flag? && items[j].Word?;
    }
  }

  // -------------------------------------------------------------------------
  // One flag anywhere on a line
  // -------------------------------------------------------------------------

  /** A switch left bare is on, wherever it stands and whatever follows it. */
  lemma BareSwitchIsTrue(before: seq<string>, name: string, after: seq<string>)
    requires !StartsWith(name, "-") && '=' !in name && name in SWITCHES
    ensures ParseArgs(before + ["--" + name] + after) == ParseArgs(before + [Spell(name, "true")] + after)
  {
    SameAnywhere(before, name, after, "true");
  }

  /** A value flag left bare, at the end of the line or before another flag, has the empty value. */
  lemma BareFlagIsEmpty(before: seq<string>, name: string, after: seq<string>)
    requires !StartsWith(name, "-") && '=' !in name && name !in SWITCHES && (after == [] || StartsWith(after[0], "-"))
    ensures ParseArgs(before + ["--" + name] + after) == ParseArgs(before + [Spell(name, "")] + after)
  {
    SameAnywhere(before, name, after, "");
  }

  lemma SameAnywhere(before: seq<string>, name: string, after: seq<string>, value: string)
    requires Bare(2, name).Fits(after) && value == if name in SWITCHES then "true" else ""
    ensures ParseArgs(before + ["--" + name] + after) == ParseArgs(before + [Spell(name, value)] + after)
  {
    TwoDashes(name, value);
    PieceThere(before, Bare(2, name), after);
    PieceThere(before, Joined(2, name, value), after);
    SameItem(Items(before), Bare(2, name).Meant(), Joined(2, name, value).Meant(), Items(after));
    hide Repeat, Spell, Items, Collect, SWITCHES;
  }

  lemma SameItem(before: seq<Item>, x: Item, y: Item, after: seq<Item>)
    requires x.Flag? && y.Flag? && x.name == y.name && x.value == y.value
    ensures Collect(before + ([x] + after)) == Collect(before + ([y] + after))
  {
    hide Collect;
    CollectSame(before + ([x] + after), before + ([y] + after));
  }

  /** A piece that is a flag is read where it stands, between what is before it and what is after it. */
  lemma PieceThere(before: seq<string>, piece: Piece, after: seq<string>)
    requires !piece.Plain? && piece.Fits(after)
    ensures Items(before + piece.Tokens() + after) == Items(before) + ([piece.Meant()] + Items(after))
  {
    hide *;
    var x := piece.Tokens() + after;
    HeadRead(piece, after);
    FlagAhead(piece, after);
    assert before + piece.Tokens() + after == before + x;
    ItemsSplit(before, x);
  }

  lemma FlagAhead(piece: Piece, after: seq<string>)
    requires !piece.Plain? && piece.Fits(after)
    ensures piece.Tokens() != [] && IsFlag((piece.Tokens() + after)[0])
  {
    DashedToken(piece.dashes, piece.name, if piece.Bare? then "" else piece.value);
    hide Repeat;
  }

  lemma TwoDashes(name: string, value: string)
    ensures Repeat('-', 2) + name == "--" + name && Repeat('-', 2) + name + "=" + value == Spell(name, value)
    ensures StartsWith("--" + name, "-") && StartsWith(Spell(name, value), "-")
  {
    assert Repeat('-', 1) == "-" && Repeat('-', 2) == "--";
  }
}
