/** Reading the `tailscale up` flags of the inventory: `_ts_parse_args`. */
module TailscaleArgs {
  import opened Text
  import Ordering
  import Shlex

  /** Prefs-backed switches: a bare `--name` means `--name=true`. */
  const BOOL_NAMES := ["accept-dns", "accept-routes", "ssh", "shields-up", "exit-node-allow-lan-access"]
  const IGNORED_NAMES := ["timeout", "authkey", "auth-key", "qr", "json", "reset", "force-reauth"]
  /** The key under which the parser collects the words that are no flags. */
  const POSITIONAL_KEY := "_positional"

  predicate IsSwitch(name: string) {
    name in BOOL_NAMES || name == "advertise-exit-node" || name == "snat-subnet-routes" || name in IGNORED_NAMES
  }

  predicate IsFlag(token: string) { token != "" && token[0] == '-' }

  /** The parser's dictionary: every entry is text, except the list of positional words. */
  datatype Entry = Value(text: string) | Positionals(words: seq<string>)
  type Flags = map<string, Entry>

  datatype Error = BadQuoting | AppendToText
  datatype Result<+T> = Ok(value: T) | Err(error: Error)

  /** `tok.lstrip("-").partition("=")`. */
  function FlagName(token: string): string {
    var body := LStripChar(token, '-');
    body[..Find(body, '=')]
  }

  function FlagValue(token: string): Option<string> {
    var body := LStripChar(token, '-');
    var i := Find(body, '=');
    if i < |body| then Some(body[i + 1..]) else None
  }

  // -------------------------------------------------------------------------
  // What a token list means, independently of the dictionary it is stored in
  // -------------------------------------------------------------------------

  /** One unit of the command line, with the tokens that spell it. */
  datatype Item = Word(token: string) | Flag(name: string, value: string, spelled: seq<string>)
  {
    function Spelled(): seq<string> { if Word? then [token] else spelled }
  }

  /** A flag that takes the following token as its value. */
  predicate TakesNext(tokens: seq<string>)
    requires tokens != []
  {
    FlagValue(tokens[0]).None? && !IsSwitch(FlagName(tokens[0])) && |tokens| > 1 && !IsFlag(tokens[1])
  }

  function FirstItem(tokens: seq<string>): (item: Item)
    requires tokens != []
    ensures 1 <= |item.Spelled()| <= |tokens| && item.Spelled() == tokens[..|item.Spelled()|]
  {
    var name := FlagName(tokens[0]);
    if !IsFlag(tokens[0]) then Word(tokens[0])
    else match FlagValue(tokens[0])
      case Some(v) => Flag(name, v, tokens[..1])
      case None =>
        if IsSwitch(name) then Flag(name, "true", tokens[..1])
        else if TakesNext(tokens) then Flag(name, tokens[1], tokens[..2])
        else Flag(name, "", tokens[..1])
  }

  function Items(tokens: seq<string>): seq<Item>
    decreases |tokens|
  {
    if tokens == [] then []
    else
      var item := FirstItem(tokens);
      [item] + Items(tokens[|item.Spelled()|..])
  }

  lemma ItemsStep(tokens: seq<string>, n: nat)
    requires tokens != [] && n == |FirstItem(tokens).Spelled()|
    ensures Items(tokens) == [FirstItem(tokens)] + Items(tokens[n..])
  {
  }

  function Unlex(items: seq<Item>): seq<string> {
    if items == [] then [] else items[0].Spelled() + Unlex(items[1..])
  }

  /** Nothing is dropped and nothing is read twice: the items spell the tokens, in order. */
  lemma {:induction false} ItemsConserveTokens(tokens: seq<string>)
    ensures Unlex(Items(tokens)) == tokens
    decreases |tokens|
  {
    hide FlagName, FlagValue, IsSwitch, FirstItem;
    if tokens != [] {
      var n := |FirstItem(tokens).Spelled()|;
      var rest := Items(tokens[n..]);
      ItemsConserveTokens(tokens[n..]);
      ItemsStep(tokens, n);
      assert ([FirstItem(tokens)] + rest)[1..] == rest;
      assert tokens == tokens[..n] + tokens[n..];
    }
  }

  function Words(items: seq<Item>): seq<string> {
    if items == [] then []
    else
      var before := Words(items[..|items| - 1]);
      var last := items[|items| - 1];
      if last.Word? then before + [last.token] else before
  }

  /** The value a flag ends up with: its last occurrence wins. */
  function LastValue(items: seq<Item>, name: string): Option<string> {
    if items == [] then None
    else
      var last := items[|items| - 1];
      if last.Flag? && last.name == name then Some(last.value)
      else LastValue(items[..|items| - 1], name)
  }

  lemma NothingRead(name: string)
    ensures Items([]) == [] && Words([]) == [] && LastValue([], name) == None
  {
  }

  lemma SnocFacts(items: seq<Item>, item: Item, name: string)
    ensures Words(items + [item]) == Words(items) + if item.Word? then [item.token] else []
    ensures LastValue(items + [item], name)
         == if item.Flag? && item.name == name then Some(item.value) else LastValue(items, name)
  {
    assert (items + [item])[..|items|] == items;
  }

  // -------------------------------------------------------------------------
  // The dictionary the parser builds
  // -------------------------------------------------------------------------

  /** `setdefault(...).append` fails on an entry that is text, not a list. */
  function Add(flags: Flags, item: Item): Result<Flags> {
    match item
    case Flag(name, value, _) => Ok(flags[name := Value(value)])
    case Word(token) =>
      if POSITIONAL_KEY !in flags then Ok(flags[POSITIONAL_KEY := Positionals([token])])
      else match flags[POSITIONAL_KEY]
        case Positionals(ws) => Ok(flags[POSITIONAL_KEY := Positionals(ws + [token])])
        case Value(_) => Err(AppendToText)
  }

  function Collect(items: seq<Item>): Result<Flags> {
    if items == [] then Ok(map[])
    else
      match Collect(items[..|items| - 1])
      case Ok(flags) => Add(flags, items[|items| - 1])
      case Err(e) => Err(e)
  }

  function ParseArgs(tokens: seq<string>): Result<Flags> { Collect(Items(tokens)) }

  /** The dictionary of a whole command line; `shlex.split` raises on an open quotation. */
  function ParsedText(args: string): Result<Flags> {
    match Shlex.Words(Shlex.Splitter, args) case None => Err(BadQuoting) case Some(tokens) => ParseArgs(tokens)
  }

  lemma CollectNothing()
    ensures Collect([]) == Ok(map[]) && Items([]) == []
  {
  }

  lemma CollectSnoc(items: seq<Item>, item: Item)
    ensures Collect(items + [item]) == match Collect(items) case Ok(f) => Add(f, item) case Err(e) => Err(e)
  {
    assert (items + [item])[..|items|] == items;
  }

  lemma {:induction false} CollectFails(before: seq<Item>, after: seq<Item>)
    requires Collect(before).Err?
    ensures Collect(before + after) == Collect(before)
    decreases |after|
  {
    if after == [] {
      assert before + after == before;
    } else {
      var n := |after| - 1;
      CollectFails(before, after[..n]);
      assert before + after == before + after[..n] + [after[n]];
      CollectSnoc(before + after[..n], after[n]);
    }
  }

  /** One turn of the loop: the next item joins those already read. */
  lemma Progress(tokens: seq<string>, i: nat, seen: seq<Item>)
    requires i < |tokens| && seen + Items(tokens[i..]) == Items(tokens)
    ensures var item := FirstItem(tokens[i..]);
            && i + |item.Spelled()| <= |tokens|
            && seen + [item] + Items(tokens[i + |item.Spelled()|..]) == Items(tokens)
            && Collect(seen + [item]) == match Collect(seen) case Ok(f) => Add(f, item) case Err(e) => Err(e)
  {
    hide FlagName, FlagValue, IsSwitch, Collect, Items, FirstItem;
    var item := FirstItem(tokens[i..]);
    var n := |item.Spelled()|;
    ItemsStep(tokens[i..], n);
    assert tokens[i..][n..] == tokens[i + n..];
    assert seen + [item] + Items(tokens[i + n..]) == seen + ([item] + Items(tokens[i + n..]));
    CollectSnoc(seen, item);
  }

  /** The loop of `_ts_parse_args`, one token or one flag with its value at a time. */
  method Parse(args: string) returns (r: Result<Flags>)
    ensures r == ParsedText(args)
  {
    hide FlagName, FlagValue, IsSwitch, Items, Collect, Shlex.Words;
    var split := Shlex.Words(Shlex.Splitter, args);
    if split.None? {
      return Err(BadQuoting);
    }
    var tokens := split.value;
    var flags: Flags := map[];
    var i := 0;
    CollectNothing();
    assert tokens[0..] == tokens;
    ghost var seen: seq<Item> := [];
    while i < |tokens|
      invariant 0 <= i <= |tokens|
      invariant seen + Items(tokens[i..]) == Items(tokens)
      invariant Collect(seen) == Ok(flags)
    {
      ghost var item := FirstItem(tokens[i..]);
      Progress(tokens, i, seen);
      var tok := tokens[i];
      i := i + 1;
      if !IsFlag(tok) {
        if POSITIONAL_KEY !in flags {
          flags := flags[POSITIONAL_KEY := Positionals([tok])];
        } else if flags[POSITIONAL_KEY].Positionals? {
          flags := flags[POSITIONAL_KEY := Positionals(flags[POSITIONAL_KEY].words + [tok])];
        } else {
          CollectFails(seen + [item], Items(tokens[i..]));
          return Err(AppendToText);
        }
      } else {
        var name, value := FlagName(tok), FlagValue(tok);
        var text := "";
        if value.Some? {
          text := value.value;
        } else if IsSwitch(name) {
          text := "true";
        } else if i < |tokens| && !IsFlag(tokens[i]) {
          text := tokens[i];
          i := i + 1;
        }
        flags := flags[name := Value(text)];
      }
      seen := seen + [item];
    }
    assert tokens[i..] == [] && seen + [] == seen;
    r := Ok(flags);
  }

  // -------------------------------------------------------------------------
  // The dictionary says what the tokens say -- unless a flag is spelled with
  // the parser's own key
  // -------------------------------------------------------------------------

  /** No flag is named like the key the parser keeps its positional words under. */
  predicate NoReserved(items: seq<Item>) {
    forall i :: 0 <= i < |items| && items[i].Flag? ==> items[i].name != POSITIONAL_KEY
  }

  ghost predicate Denotes(flags: Flags, items: seq<Item>) {
    && (forall n :: n != POSITIONAL_KEY ==> (n in flags <==> LastValue(items, n).Some?))
    && (forall n :: n in flags && n != POSITIONAL_KEY ==> flags[n] == Value(LastValue(items, n).value))
    && (POSITIONAL_KEY in flags <==> Words(items) != [])
    && (POSITIONAL_KEY in flags ==> flags[POSITIONAL_KEY] == Positionals(Words(items)))
  }

  /** The dictionary holds every flag's last value and every positional word, for exactly
      the command lines that do not spell a flag `--_positional`. */
  lemma ParseFaithful(tokens: seq<string>)
    ensures NoReserved(Items(tokens)) <==>
            ParseArgs(tokens).Ok? && Denotes(ParseArgs(tokens).value, Items(tokens))
  {
    hide FlagName, FlagValue, IsSwitch;
    CollectFaithful(Items(tokens));
  }

  lemma CollectFaithful(items: seq<Item>)
    ensures NoReserved(items) <==> Collect(items).Ok? && Denotes(Collect(items).value, items)
  {
    CollectReserved(items);
    if NoReserved(items) {
      CollectDenotes(items);
    }
  }

  lemma {:induction false} CollectDenotes(items: seq<Item>)
    requires NoReserved(items)
    ensures Collect(items).Ok? && Denotes(Collect(items).value, items)
  {
    if items != [] {
      CollectDenotes(items[..|items| - 1]);
    }
  }

  lemma {:induction false} CollectReserved(items: seq<Item>)
    ensures !NoReserved(items) && Collect(items).Ok? ==>
              POSITIONAL_KEY in Collect(items).value && Collect(items).value[POSITIONAL_KEY].Value?
  {
    if items != [] {
      var n := |items| - 1;
      CollectReserved(items[..n]);
      if NoReserved(items[..n]) && !(items[n].Flag? && items[n].name == POSITIONAL_KEY) {
        assert forall i :: 0 <= i < n ==> items[i] == items[..n][i];
      }
    }
  }

  /** The word `x` is unexpected, yet the parser forgets it: the later `--_positional=`
      overwrites the list it was kept in. */
  lemma ReservedFlagDropsWord()
    ensures Items(["x", "--_positional="]) == [Word("x"), Flag(POSITIONAL_KEY, "", ["--_positional="])]
    ensures ParseArgs(["x", "--_positional="]) == Ok(map[POSITIONAL_KEY := Value("")])
  {
    hide FlagName, FlagValue, IsSwitch, Items, Collect;
    var t := Spell(POSITIONAL_KEY, "");
    NamedToken(POSITIONAL_KEY, "");
    assert t == "--_positional=";
    WordThenFlag("x", t);
    OverwrittenWord("x", Flag(POSITIONAL_KEY, "", [t]));
  }

  lemma OverwrittenWord(word: string, item: Item)
    requires item.Flag? && item.name == POSITIONAL_KEY
    ensures Collect([Word(word), item]) == Ok(map[POSITIONAL_KEY := Value(item.value)])
  {
    CollectNothing();
    CollectSnoc([], Word(word));
    CollectSnoc([Word(word)], item);
    assert [] + [Word(word)] == [Word(word)] && [Word(word)] + [item] == [Word(word), item];
    var first: Flags := map[POSITIONAL_KEY := Positionals([word])];
    assert Collect([Word(word)]) == Ok(first);
    assert first[POSITIONAL_KEY := Value(item.value)] == map[POSITIONAL_KEY := Value(item.value)];
  }

  lemma WordThenFlag(word: string, flag: string)
    requires !IsFlag(word) && IsFlag(flag) && FlagValue(flag).Some?
    ensures Items([word, flag]) == [Word(word), Flag(FlagName(flag), FlagValue(flag).value, [flag])]
  {
    ItemsStep([word, flag], 1);
    assert [word, flag][1..] == [flag];
    ItemsStep([flag], 1);
    assert [flag][1..] == [] && [flag][..1] == [flag];
  }

  // -------------------------------------------------------------------------
  // Writing flags and reading them back
  // -------------------------------------------------------------------------

  /** A name the flag syntax can carry. */
  predicate IsName(name: string) { !IsFlag(name) && '=' !in name }

  function Spell(name: string, value: string): string { "--" + name + "=" + value }

  function SpellAll(names: seq<string>, values: map<string, string>): seq<string>
    requires forall n :: n in names ==> n in values
  {
    seq(|names|, i requires 0 <= i < |names| => Spell(names[i], values[names[i]]))
  }

  lemma StripDashes(body: string)
    requires !IsFlag(body)
    ensures LStripChar("--" + body, '-') == body
  {
    LStripCharCons('-', body);
    LStripCharCons('-', ['-'] + body);
    assert "--" + body == ['-'] + (['-'] + body);
  }

  lemma NameThenValue(name: string, value: string)
    requires '=' !in name
    ensures var body := name + "=" + value;
            Find(body, '=') == |name| < |body| && body[..|name|] == name && body[|name| + 1..] == value
  {
    FindFirst(name, '=', value);
    assert name + "=" + value == name + ['='] + value;
  }

  lemma NamedToken(name: string, value: string)
    requires IsName(name)
    ensures var t := Spell(name, value);
            IsFlag(t) && FlagName(t) == name && FlagValue(t) == Some(value)
  {
    var t := Spell(name, value);
    var body := name + "=" + value;
    assert t[0] == '-';
    assert LStripChar(t, '-') == body by {
      assert t == "--" + body;
      StripDashes(body);
    }
    NameThenValue(name, value);
  }

  lemma {:induction false} ItemsOfSpelled(names: seq<string>, values: map<string, string>)
    requires forall n :: n in names ==> n in values && IsName(n)
    ensures var items := Items(SpellAll(names, values));
            |items| == |names| && forall i :: 0 <= i < |items| ==>
              items[i].Flag? && items[i].name == names[i] && items[i].value == values[names[i]]
  {
    hide FlagName, FlagValue, IsSwitch;
    if names != [] {
      var tokens := SpellAll(names, values);
      NamedToken(names[0], values[names[0]]);
      assert names[0] in names;
      assert tokens[1..] == SpellAll(names[1..], values);
      ItemsOfSpelled(names[1..], values);
      assert Items(tokens) == [FirstItem(tokens)] + Items(tokens[1..]);
    }
  }

  lemma {:induction false} CollectPairs(items: seq<Item>, names: seq<string>, values: map<string, string>)
    requires |items| == |names|
    requires forall i :: 0 <= i < |items| ==>
               items[i].Flag? && items[i].name == names[i] && names[i] in values && items[i].value == values[names[i]]
    ensures Collect(items) == Ok(map n | n in Ordering.Elems(names) :: Value(values[n]))
  {
    if items != [] {
      var k := |items| - 1;
      CollectPairs(items[..k], names[..k], values);
      assert names == names[..k] + [names[k]];
      assert Ordering.Elems(names) == Ordering.Elems(names[..k]) + {names[k]};
      var before := map n | n in Ordering.Elems(names[..k]) :: Value(values[n]);
      assert before[names[k] := Value(values[names[k]])] == map n | n in Ordering.Elems(names) :: Value(values[n]);
    }
  }

  /** Writing a flag map as `--name=value` tokens, in any order, and parsing it returns the map. */
  lemma RenderParse(values: map<string, string>, order: seq<string>)
    requires Ordering.Elems(order) == values.Keys
    requires forall n :: n in values ==> IsName(n)
    ensures forall n :: n in order ==> n in values
    ensures ParseArgs(SpellAll(order, values)) == Ok(map n | n in values :: Value(values[n]))
  {
    forall n | n in order ensures n in values { assert n in Ordering.Elems(order); }
    ItemsOfSpelled(order, values);
    CollectPairs(Items(SpellAll(order, values)), order, values);
  }

  /** Tokens before a token that is a flag are read the same whatever follows. */
  lemma {:induction false} ItemsSplit(before: seq<string>, after: seq<string>)
    requires after != [] ==> IsFlag(after[0])
    ensures Items(before + after) == Items(before) + Items(after)
    decreases |before|
  {
    hide FlagName, FlagValue, IsSwitch, FirstItem;
    if before == [] {
      assert before + after == after;
    } else {
      var n := |FirstItem(before).Spelled()|;
      SameFirstItem(before, after);
      assert (before + after)[n..] == before[n..] + after;
      ItemsStep(before, n);
      ItemsStep(before + after, n);
      hide *;
      ItemsSplit(before[n..], after);
      var item := FirstItem(before);
      assert [item] + (Items(before[n..]) + Items(after)) == [item] + Items(before[n..]) + Items(after);
    }
  }

  lemma SameFirstItem(before: seq<string>, after: seq<string>)
    requires before != [] && (after != [] ==> IsFlag(after[0]))
    ensures FirstItem(before + after) == FirstItem(before)
  {
    hide FlagName, FlagValue, IsSwitch;
    var all := before + after;
    assert all[0] == before[0] && all[..1] == before[..1];
    if |before| > 1 {
      assert all[1] == before[1] && all[..2] == before[..2];
    } else if after != [] {
      assert all[1] == after[0];
    }
  }

  lemma {:induction false} CollectSame(a: seq<Item>, b: seq<Item>)
    requires |a| == |b|
    requires forall i :: 0 <= i < |a| ==>
               a[i] == b[i] || (a[i].Flag? && b[i].Flag? && a[i].name == b[i].name && a[i].value == b[i].value)
    ensures Collect(a) == Collect(b)
  {
    if a != [] {
      CollectSame(a[..|a| - 1], b[..|b| - 1]);
    }
  }

  /** `--name value` and `--name=value` are the same flag, anywhere on the command line, for a
      flag that takes a value, when the value does not look like a flag itself. */
  lemma SpacedEqualsJoined(before: seq<string>, name: string, value: string, after: seq<string>)
    requires IsName(name) && !IsSwitch(name) && !IsFlag(value)
    ensures ParseArgs(before + ["--" + name, value] + after) == ParseArgs(before + [Spell(name, value)] + after)
  {
    hide FlagName, FlagValue, IsSwitch, Items, Collect, FirstItem;
    var bare, joined := "--" + name, Spell(name, value);
    NamedToken(name, value);
    BareToken(name);
    var x, y := [bare, value] + after, [joined] + after;
    assert before + [bare, value] + after == before + x && before + [joined] + after == before + y;
    ItemsSplit(before, x);
    ItemsSplit(before, y);
    FlagThenRest(bare, value, after);
    JoinedThenRest(joined, after);
    CollectSame(Items(before) + Items(x), Items(before) + Items(y));
  }

  lemma JoinedThenRest(joined: string, after: seq<string>)
    requires IsFlag(joined) && FlagValue(joined).Some?
    ensures var y := [joined] + after;
            Items(y) == [Flag(FlagName(joined), FlagValue(joined).value, y[..1])] + Items(after)
  {
    var y := [joined] + after;
    assert FirstItem(y) == Flag(FlagName(joined), FlagValue(joined).value, y[..1]);
    ItemsStep(y, 1);
    assert y[1..] == after;
  }

  lemma FlagThenRest(bare: string, value: string, after: seq<string>)
    requires IsFlag(bare) && FlagValue(bare) == None && !IsSwitch(FlagName(bare)) && !IsFlag(value)
    ensures var x := [bare, value] + after;
            Items(x) == [Flag(FlagName(bare), value, x[..2])] + Items(after)
  {
    var x := [bare, value] + after;
    assert x[0] == bare && x[1] == value;
    assert FirstItem(x) == Flag(FlagName(bare), value, x[..2]);
    ItemsStep(x, 2);
    assert x[2..] == after;
  }

  lemma BareToken(name: string)
    requires IsName(name)
    ensures var t := "--" + name; IsFlag(t) && FlagName(t) == name && FlagValue(t) == None
  {
    StripDashes(name);
  }
}
