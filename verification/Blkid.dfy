/** Reading `blkid -p -o export`: one KEY=VALUE a line, unsafe characters escaped. */
module Blkid {
  import opened Text

  /** The characters that end a line for `str.splitlines`. */
  predicate IsLineBreak(c: char) {
    var n := c as int;
    10 <= n <= 13 || 0x1c <= n <= 0x1e || n == 0x85 || n == 0x2028 || n == 0x2029
  }

  predicate NoBreak(s: string) { forall i :: 0 <= i < |s| ==> !IsLineBreak(s[i]) }

  function FirstBreak(s: string): (i: nat)
    ensures i <= |s| && (i < |s| ==> IsLineBreak(s[i]))
  {
    if s == "" || IsLineBreak(s[0]) then 0 else 1 + FirstBreak(s[1..])
  }

  /** `str.splitlines`: CR LF is one break, and a final break starts no further line. */
  function SplitLines(s: string): seq<string>
    decreases |s|
  {
    if s == "" then []
    else
      var i := FirstBreak(s);
      if i == |s| then [s]
      else [s[..i]] + SplitLines(if s[i] == '\r' && i + 1 < |s| && s[i + 1] == '\n' then s[i + 2..] else s[i + 1..])
  }

  /** `re.sub(r"\\(.)", r"\1", value)`: the escaping backslashes are dropped. */
  function Unescape(s: string): string
    decreases |s|
  {
    if s == "" then ""
    else if s[0] == '\\' && |s| > 1 && s[1] != '\n' then [s[1]] + Unescape(s[2..])
    else [s[0]] + Unescape(s[1..])
  }

  /** The entry a line holds, if it holds one. */
  function Entry(raw: string): Option<(string, string)> {
    var line := Strip(raw);
    var i := Find(line, '=');
    if i == |line| then None else Some((Strip(line[..i]), Unescape(line[i + 1..])))
  }

  function ParseLines(lines: seq<string>): map<string, string> {
    if lines == [] then map[]
    else
      var before := ParseLines(lines[..|lines| - 1]);
      match Entry(lines[|lines| - 1])
      case None => before
      case Some((k, v)) => before[k := v]
  }

  function Parse(stdout: string): map<string, string> { ParseLines(SplitLines(stdout)) }

  /** `parse_blkid`. */
  method ParseBlkid(stdout: string) returns (out: map<string, string>)
    ensures out == Parse(stdout)
  {
    var lines := SplitLines(stdout);
    out := map[];
    for i := 0 to |lines|
      invariant out == ParseLines(lines[..i])
    {
      assert lines[..i + 1][..i] == lines[..i];
      var line := Strip(lines[i]);
      var eq := Find(line, '=');
      if line == "" || eq == |line| {
        continue;
      }
      out := out[Strip(line[..eq]) := Unescape(line[eq + 1..])];
    }
    assert lines[..|lines|] == lines;
  }

  // -------------------------------------------------------------------------
  // Printing and reading back
  // -------------------------------------------------------------------------

  /** A printer that escapes the backslash and whichever other characters it likes. */
  function Escape(s: string, unsafe: set<char>): string {
    if s == "" then ""
    else (if s[0] == '\\' || s[0] in unsafe then ['\\', s[0]] else [s[0]]) + Escape(s[1..], unsafe)
  }

  function PrintEntry(key: string, value: string, unsafe: set<char>): string {
    key + "=" + Escape(value, unsafe)
  }

  function Print(keys: seq<string>, values: map<string, string>, unsafe: set<char>): string
    requires forall k :: k in keys ==> k in values
  {
    if keys == [] then ""
    else PrintEntry(keys[0], values[keys[0]], unsafe) + "\n" + Print(keys[1..], values, unsafe)
  }

  predicate GoodKey(key: string) { '=' !in key && Trimmed(key) && NoBreak(key) }

  predicate GoodValue(value: string) { NoBreak(value) && (value != "" ==> !IsSpace(value[|value| - 1])) }

  lemma {:induction false} UnescapeEscape(s: string, unsafe: set<char>)
    requires NoBreak(s)
    ensures Unescape(Escape(s, unsafe)) == s
  {
    if s != "" {
      var rest := Escape(s[1..], unsafe);
      UnescapeEscape(s[1..], unsafe);
      assert s == [s[0]] + s[1..];
      if s[0] == '\\' || s[0] in unsafe {
        var e := ['\\', s[0]] + rest;
        assert e[0] == '\\' && e[1] == s[0] && e[2..] == rest;
      } else {
        var e := [s[0]] + rest;
        assert e[0] == s[0] && e[1..] == rest;
      }
    }
  }

  lemma {:induction false} EscapeFacts(s: string, unsafe: set<char>)
    requires GoodValue(s)
    ensures var e := Escape(s, unsafe);
            NoBreak(e) && (e != "" ==> !IsSpace(e[|e| - 1]))
  {
    if s != "" {
      var rest := Escape(s[1..], unsafe);
      var head := if s[0] == '\\' || s[0] in unsafe then ['\\', s[0]] else [s[0]];
      EscapeFacts(s[1..], unsafe);
      assert Escape(s, unsafe) == head + rest;
      if |s| == 1 {
        assert rest == "";
      } else {
        assert rest != "";
      }
    }
  }

  lemma PrintedEntry(key: string, value: string, unsafe: set<char>)
    requires GoodKey(key) && GoodValue(value)
    ensures var line := PrintEntry(key, value, unsafe);
            NoBreak(line) && Trimmed(line) && Entry(line) == Some((key, value))
  {
    var line, e := PrintEntry(key, value, unsafe), Escape(value, unsafe);
    EscapeFacts(value, unsafe);
    UnescapeEscape(value, unsafe);
    FindFirst(key, '=', e);
    assert key + ['='] + e == line;
    assert line[..|key|] == key && line[|key| + 1..] == e;
    assert Trimmed(line) by {
      assert line[|line| - 1] == if e == "" then '=' else e[|e| - 1];
      assert line[0] == if key == "" then '=' else key[0];
    }
    StripFacts(line);
    StripFacts(key);
  }

  lemma {:induction false} FirstBreakAt(line: string, c: char, rest: string)
    requires NoBreak(line) && IsLineBreak(c)
    ensures FirstBreak(line + [c] + rest) == |line|
  {
    var s := line + [c] + rest;
    if line != "" {
      assert s[1..] == line[1..] + [c] + rest;
      FirstBreakAt(line[1..], c, rest);
    }
  }

  lemma SplitLinesCons(line: string, rest: string)
    requires NoBreak(line)
    ensures SplitLines(line + "\n" + rest) == [line] + SplitLines(rest)
  {
    var s := line + "\n" + rest;
    assert s == line + ['\n'] + rest;
    FirstBreakAt(line, '\n', rest);
    assert s[..|line|] == line && s[|line| + 1..] == rest && s[|line|] == '\n';
  }

  /** One printed line per key, in order. */
  lemma {:induction false} PrintedLines(keys: seq<string>, values: map<string, string>, unsafe: set<char>)
    requires forall k :: k in keys ==> k in values && GoodKey(k) && GoodValue(values[k])
    ensures var lines := SplitLines(Print(keys, values, unsafe));
            |lines| == |keys| && forall i :: 0 <= i < |keys| ==> Entry(lines[i]) == Some((keys[i], values[keys[i]]))
  {
    if keys != [] {
      assert keys[0] in keys;
      PrintedEntry(keys[0], values[keys[0]], unsafe);
      PrintedLines(keys[1..], values, unsafe);
      SplitLinesCons(PrintEntry(keys[0], values[keys[0]], unsafe), Print(keys[1..], values, unsafe));
    }
  }

  /** The first keys of the map, as the parser collects them. */
  function Restricted(keys: seq<string>, values: map<string, string>): map<string, string>
    requires forall k :: k in keys ==> k in values
  {
    map k | k in keys :: values[k]
  }

  lemma RestrictedGrows(keys: seq<string>, last: string, values: map<string, string>)
    requires forall k :: k in keys + [last] ==> k in values
    ensures forall k :: k in keys ==> k in values
    ensures last in values && Restricted(keys + [last], values) == Restricted(keys, values)[last := values[last]]
  {
    assert forall k :: k in keys + [last] <==> k in keys || k == last;
  }

  lemma {:induction false} EntriesCollected(lines: seq<string>, keys: seq<string>, values: map<string, string>)
    requires |lines| == |keys|
    requires forall k :: k in keys ==> k in values
    requires forall i :: 0 <= i < |keys| ==> Entry(lines[i]) == Some((keys[i], values[keys[i]]))
    ensures ParseLines(lines) == Restricted(keys, values)
  {
    hide Entry;
    if lines != [] {
      var n := |lines| - 1;
      EntriesCollected(lines[..n], keys[..n], values);
      assert keys == keys[..n] + [keys[n]];
      RestrictedGrows(keys[..n], keys[n], values);
    }
  }

  lemma {:induction false} UnescapeFacts(s: string)
    requires NoBreak(s)
    ensures var u := Unescape(s);
            NoBreak(u) && (s != "" ==> u != "" && u[|u| - 1] == s[|s| - 1])
    decreases |s|
  {
    if s != "" {
      if s[0] == '\\' && |s| > 1 {
        UnescapeFacts(s[2..]);
        assert Unescape(s) == [s[1]] + Unescape(s[2..]);
      } else {
        UnescapeFacts(s[1..]);
        assert Unescape(s) == [s[0]] + Unescape(s[1..]);
      }
    }
  }

  /** Whatever blkid prints, the keys and values read from it are of the printable kind. */
  lemma EntryIsGood(line: string)
    requires NoBreak(line)
    ensures Entry(line).Some? ==> GoodKey(Entry(line).value.0) && GoodValue(Entry(line).value.1)
  {
    StripFacts(line);
    var s := Strip(line);
    var i := Find(s, '=');
    FindFacts(s, '=');
    assert NoBreak(s) by { forall j | 0 <= j < |s| ensures !IsLineBreak(s[j]) { assert s[j] in line; } }
    if i < |s| {
      StripFacts(s[..i]);
      var k := Strip(s[..i]);
      assert NoBreak(k) by {
        forall j | 0 <= j < |k| ensures !IsLineBreak(k[j]) { assert k[j] in s[..i]; }
      }
      UnescapeFacts(s[i + 1..]);
    }
  }

  lemma {:induction false} FirstBreakFree(s: string)
    ensures NoBreak(s[..FirstBreak(s)])
  {
    if s != "" && !IsLineBreak(s[0]) {
      FirstBreakFree(s[1..]);
      assert s[..FirstBreak(s)] == [s[0]] + s[1..][..FirstBreak(s[1..])];
    }
  }

  lemma {:induction false} SplitLinesFree(s: string)
    ensures forall i :: 0 <= i < |SplitLines(s)| ==> NoBreak(SplitLines(s)[i])
    decreases |s|
  {
    if s != "" {
      var i := FirstBreak(s);
      FirstBreakFree(s);
      if i == |s| {
        assert s[..i] == s;
      } else {
        SplitLinesFree(if s[i] == '\r' && i + 1 < |s| && s[i + 1] == '\n' then s[i + 2..] else s[i + 1..]);
      }
    }
  }

  predicate AllGood(values: map<string, string>) {
    forall k :: k in values ==> GoodKey(k) && GoodValue(values[k])
  }

  lemma {:induction false} ParsedIsGood(lines: seq<string>)
    requires forall i :: 0 <= i < |lines| ==> NoBreak(lines[i])
    ensures AllGood(ParseLines(lines))
  {
    hide Entry, GoodKey, GoodValue;
    if lines != [] {
      ParsedIsGood(lines[..|lines| - 1]);
      EntryIsGood(lines[|lines| - 1]);
    }
  }

  /** Reading undoes printing -- for any key order, and whatever else than the backslash the
      printer escapes -- exactly when no key holds a `=`, a line break or surrounding whitespace,
      and no value holds a line break or trailing whitespace. */
  lemma ParsePrintExact(values: map<string, string>, keys: seq<string>, unsafe: set<char>)
    requires forall k :: k in keys <==> k in values
    ensures Parse(Print(keys, values, unsafe)) == values <==> AllGood(values)
  {
    hide SplitLines, Entry, GoodKey, GoodValue, Print;
    if AllGood(values) {
      PrintedLines(keys, values, unsafe);
      EntriesCollected(SplitLines(Print(keys, values, unsafe)), keys, values);
      assert Restricted(keys, values) == values;
    }
    SplitLinesFree(Print(keys, values, unsafe));
    ParsedIsGood(SplitLines(Print(keys, values, unsafe)));
  }

  // -------------------------------------------------------------------------
  // Any text at all
  // -------------------------------------------------------------------------

  /** The characters that end a line, one by one. */
  lemma BreaksExactly(c: char)
    ensures IsLineBreak(c) <==>
            c as int in {0xa, 0xb, 0xc, 0xd, 0x1c, 0x1d, 0x1e, 0x85, 0x2028, 0x2029}
  {
  }

  /** A line ends at the first break; a carriage return with a line feed behind it is one break. */
  lemma LineEnds(line: string, c: char, rest: string)
    requires NoBreak(line) && IsLineBreak(c)
    ensures c == '\r' && StartsWith(rest, "\n") ==> SplitLines(line + [c] + rest) == [line] + SplitLines(rest[1..])
    ensures !(c == '\r' && StartsWith(rest, "\n")) ==> SplitLines(line + [c] + rest) == [line] + SplitLines(rest)
  {
    var s := line + [c] + rest;
    FirstBreakAt(line, c, rest);
    hide FirstBreak, IsLineBreak;
    assert s[..|line|] == line && s[|line|] == c && s[|line| + 1..] == rest;
    if |line| + 1 < |s| {
      assert s[|line| + 1] == rest[0] && s[|line| + 2..] == rest[1..];
    }
    assert rest != "" ==> rest[..1] == [rest[0]];
  }

  /** What is left behind the last break is a line, unless it is empty. */
  lemma LastLineEnds(line: string)
    requires NoBreak(line)
    ensures SplitLines(line) == if line == "" then [] else [line]
  {
    NoFirstBreak(line);
  }

  lemma {:induction false} NoFirstBreak(line: string)
    requires NoBreak(line)
    ensures FirstBreak(line) == |line|
  {
    if line != "" {
      NoFirstBreak(line[1..]);
    }
  }

  /** A line holds an entry when there is a `=` in it: the key is what stands before the first one, whitespace
      around it and around the line apart, and the value what stands behind it, unescaped. */
  lemma EntryExactly(raw: string, key: string, value: string)
    ensures Strip(raw) == key + "=" + value && '=' !in key ==> Entry(raw) == Some((Strip(key), Unescape(value)))
    ensures '=' !in Strip(raw) ==> Entry(raw).None?
  {
    hide Strip, Unescape;
    FindFacts(Strip(raw), '=');
    if Strip(raw) == key + "=" + value && '=' !in key {
      assert key + "=" + value == key + ['='] + value;
      FindFirst(key, '=', value);
      assert Strip(raw)[..|key|] == key && Strip(raw)[|key| + 1..] == value;
    }
  }

  /** A backslash goes and what it escapes stays, except a line feed; a backslash at the end stays. */
  lemma UnescapeExactly(c: char, rest: string)
    ensures Unescape("") == "" && Unescape("\\") == "\\"
    ensures c != '\n' ==> Unescape(['\\', c] + rest) == [c] + Unescape(rest)
    ensures c == '\n' ==> Unescape(['\\', c] + rest) == ['\\'] + Unescape([c] + rest)
    ensures c != '\\' ==> Unescape([c] + rest) == [c] + Unescape(rest)
  {
    var two, one := ['\\', c] + rest, [c] + rest;
    assert two[2..] == rest && two[1..] == one && one[1..] == rest;
    assert "\\"[1..] == "";
  }

  /** The last entry of a key is the one that counts. */
  lemma {:induction false} LastEntryCounts(lines: seq<string>, i: nat)
    requires i < |lines| && Entry(lines[i]).Some?
    requires forall j :: i < j < |lines| && Entry(lines[j]).Some? ==> Entry(lines[j]).value.0 != Entry(lines[i]).value.0
    ensures var (key, value) := Entry(lines[i]).value; key in ParseLines(lines) && ParseLines(lines)[key] == value
  {
    hide Entry;
    var n := |lines| - 1;
    if i < n {
      assert forall j :: 0 <= j < n ==> lines[..n][j] == lines[j];
      LastEntryCounts(lines[..n], i);
    }
  }

  lemma {:induction false} KeysExactly(lines: seq<string>, key: string)
    ensures key in ParseLines(lines) <==>
            exists i :: 0 <= i < |lines| && Entry(lines[i]).Some? && Entry(lines[i]).value.0 == key
  {
    hide Entry;
    if lines != [] {
      var n := |lines| - 1;
      assert forall j :: 0 <= j < n ==> lines[..n][j] == lines[j];
      KeysExactly(lines[..n], key);
    }
  }
}
