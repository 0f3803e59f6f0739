/** The parts of Python's `str` that the filter plugins lean on, over `seq<char>`. */
module Text {

  datatype Option<+T> = None | Some(value: T)

  /** `str.isspace` of one character. */
  predicate IsSpace(c: char) {
    var n := c as int;
    9 <= n <= 13 || 0x1c <= n <= 0x20 || n == 0x85 || n == 0xa0 || n == 0x1680 || 0x2000 <= n <= 0x200a
    || n == 0x2028 || n == 0x2029 || n == 0x202f || n == 0x205f || n == 0x3000
  }

  predicate IsDigit(c: char) { '0' <= c <= '9' }

  predicate AllDigits(s: string) { s != "" && forall i :: 0 <= i < |s| ==> IsDigit(s[i]) }

  /** No whitespace at either end. */
  predicate Trimmed(s: string) {
    s != "" ==> !IsSpace(s[0]) && !IsSpace(s[|s| - 1])
  }

  function LStrip(s: string): string {
    if s != "" && IsSpace(s[0]) then LStrip(s[1..]) else s
  }

  function RStrip(s: string): string {
    if s != "" && IsSpace(s[|s| - 1]) then RStrip(s[..|s| - 1]) else s
  }

  /** `s.strip()`. */
  function Strip(s: string): string { RStrip(LStrip(s)) }

  lemma {:induction false} LStripFacts(s: string)
    ensures var r := LStrip(s);
            (r != "" ==> !IsSpace(r[0])) && |r| <= |s| && r == s[|s| - |r|..]
  {
    if s != "" && IsSpace(s[0]) {
      LStripFacts(s[1..]);
    }
  }

  lemma {:induction false} RStripFacts(s: string)
    ensures var r := RStrip(s);
            r <= s && (r != "" ==> !IsSpace(r[|r| - 1]))
  {
    if s != "" && IsSpace(s[|s| - 1]) {
      RStripFacts(s[..|s| - 1]);
    }
  }

  lemma StripFacts(s: string)
    ensures var r := Strip(s);
            && Trimmed(r) && |r| <= |s| && (forall c :: c in r ==> c in s)
            && (r == s <==> Trimmed(s))
  {
    hide LStrip, RStrip, IsSpace;
    LStripFacts(s);
    var l := LStrip(s);
    RStripFacts(l);
    var r := RStrip(l);
    SliceMembers(s, |s| - |l|, l, r);
    if Trimmed(s) {
      TrimmedStays(s);
    }
  }

  lemma SliceMembers(s: string, n: nat, l: string, r: string)
    requires n <= |s| && l == s[n..] && r <= l
    ensures forall c :: c in r ==> c in s
  {
    forall c | c in r ensures c in s {
      var i :| 0 <= i < |r| && r[i] == c;
      assert s[n + i] == c;
    }
  }

  lemma TrimmedStays(s: string)
    requires Trimmed(s)
    ensures Strip(s) == s
  {
  }

  /** The characters Python takes for whitespace, one by one. */
  lemma SpacesExactly(c: char)
    ensures IsSpace(c) <==>
            c as int in {0x9, 0xa, 0xb, 0xc, 0xd, 0x1c, 0x1d, 0x1e, 0x1f, 0x20, 0x85, 0xa0, 0x1680,
                         0x2000, 0x2001, 0x2002, 0x2003, 0x2004, 0x2005, 0x2006, 0x2007, 0x2008, 0x2009, 0x200a,
                         0x2028, 0x2029, 0x202f, 0x205f, 0x3000}
  {
  }

  ghost predicate AllSpaces(s: string) { forall i :: 0 <= i < |s| ==> IsSpace(s[i]) }

  lemma {:induction false} LStripPadded(a: string, r: string)
    requires AllSpaces(a) && (r == "" || !IsSpace(r[0]))
    ensures LStrip(a + r) == r
  {
    hide IsSpace;
    if a == "" {
      assert a + r == r;
    } else {
      assert (a + r)[1..] == a[1..] + r;
      LStripPadded(a[1..], r);
    }
  }

  lemma {:induction false} RStripPadded(r: string, b: string)
    requires AllSpaces(b) && (r == "" || !IsSpace(r[|r| - 1]))
    ensures RStrip(r + b) == r
  {
    hide IsSpace;
    if b == "" {
      assert r + b == r;
    } else {
      var n := |b| - 1;
      assert (r + b)[..|r + b| - 1] == r + b[..n];
      RStripPadded(r, b[..n]);
    }
  }

  /** Stripping takes the whitespace off both ends, all of it and nothing else: every text is some padding
      around a text that neither begins nor ends with whitespace. */
  lemma StripPadded(a: string, r: string, b: string)
    requires AllSpaces(a) && AllSpaces(b) && Trimmed(r)
    ensures Strip(a + r + b) == r
  {
    hide IsSpace, LStrip, RStrip;
    if r == "" {
      assert a + r + b == (a + b) + "";
      LStripPadded(a + b, "");
      RStripPadded("", "");
      assert "" + "" == "";
    } else {
      assert a + r + b == a + (r + b);
      LStripPadded(a, r + b);
      RStripPadded(r, b);
    }
  }

  /** `s.rstrip(c)` for a single character. */
  function RStripChar(s: string, c: char): string {
    if s != "" && s[|s| - 1] == c then RStripChar(s[..|s| - 1], c) else s
  }

  /** `s.lstrip(c)` for a single character. */
  function LStripChar(s: string, c: char): string {
    if s != "" && s[0] == c then LStripChar(s[1..], c) else s
  }

  lemma LStripCharCons(c: char, s: string)
    ensures LStripChar([c] + s, c) == LStripChar(s, c)
  {
    assert ([c] + s)[1..] == s;
  }

  /** `c`, so many times. */
  function Repeat(c: char, n: nat): string { if n == 0 then "" else [c] + Repeat(c, n - 1) }

  /** Every leading `c` goes, and nothing else. */
  lemma {:induction false} LStripCharExactly(c: char, n: nat, r: string)
    requires r == "" || r[0] != c
    ensures LStripChar(Repeat(c, n) + r, c) == r
  {
    if n == 0 {
      assert Repeat(c, 0) + r == r;
    } else {
      assert Repeat(c, n) + r == [c] + (Repeat(c, n - 1) + r);
      LStripCharCons(c, Repeat(c, n - 1) + r);
      LStripCharExactly(c, n - 1, r);
    }
  }

  /** Every trailing `c` goes, and nothing else. */
  lemma {:induction false} RStripCharExactly(r: string, c: char, n: nat)
    requires r == "" || r[|r| - 1] != c
    ensures RStripChar(r + Repeat(c, n), c) == r
  {
    if n == 0 {
      assert r + Repeat(c, 0) == r;
    } else {
      RepeatSnoc(c, n - 1);
      RStripCharExactly(r, c, n - 1);
      hide Repeat;
      var s := r + Repeat(c, n);
      assert s[|s| - 1] == c && s[..|s| - 1] == r + Repeat(c, n - 1);
    }
  }

  lemma {:induction false} RepeatSnoc(c: char, n: nat)
    ensures Repeat(c, n + 1) == Repeat(c, n) + [c]
  {
    if n > 0 {
      RepeatSnoc(c, n - 1);
    }
  }

  predicate StartsWith(s: string, prefix: string) { prefix <= s }

  predicate EndsWith(s: string, suffix: string) {
    |suffix| <= |s| && s[|s| - |suffix|..] == suffix
  }

  lemma EndsWithExactly(s: string, suffix: string)
    ensures EndsWith(s, suffix) <==> exists front :: s == front + suffix
  {
    if EndsWith(s, suffix) {
      assert s == s[..|s| - |suffix|] + suffix;
    }
  }

  /** Where `c` first occurs, or `|s|`. */
  function Find(s: string, c: char): (i: nat)
    ensures i <= |s| && (i < |s| ==> s[i] == c)
  {
    if s == "" || s[0] == c then 0 else 1 + Find(s[1..], c)
  }

  lemma {:induction false} FindFacts(s: string, c: char)
    ensures c !in s[..Find(s, c)]
    ensures Find(s, c) == |s| <==> c !in s
  {
    if s != "" && s[0] != c {
      FindFacts(s[1..], c);
      assert s[..Find(s, c)] == [s[0]] + s[1..][..Find(s[1..], c)];
    }
  }

  lemma {:induction false} FindFirst(head: string, c: char, tail: string)
    requires c !in head
    ensures Find(head + [c] + tail, c) == |head|
  {
    var s := head + [c] + tail;
    if head != "" {
      assert s[1..] == head[1..] + [c] + tail;
      FindFirst(head[1..], c, tail);
    }
  }

  /** `str.lower` on ASCII; enough for every comparison with a lower-case ASCII word. */
  function Lower(s: string): (r: string)
    ensures |r| == |s|
  {
    if s == "" then ""
    else [if 'A' <= s[0] <= 'Z' then (s[0] as int + 32) as char else s[0]] + Lower(s[1..])
  }

  const UPPER := "ABCDEFGHIJKLMNOPQRSTUVWXYZ"
  const LOWER := "abcdefghijklmnopqrstuvwxyz"

  /** The lower-case letter for an upper-case one, and any other character for itself. */
  ghost predicate Lowers(c: char, d: char) {
    if c in UPPER then exists i :: 0 <= i < |UPPER| && c == UPPER[i] && d == LOWER[i] else d == c
  }

  lemma Alphabet()
    ensures |UPPER| == |LOWER| == 26
    ensures forall i :: 0 <= i < 26 ==> UPPER[i] as int == 'A' as int + i && LOWER[i] as int == 'a' as int + i
  {
  }

  lemma AlphabetLowers(upper: string, lower: string, c: char)
    requires |upper| == |lower| == 26
    requires forall i :: 0 <= i < 26 ==> upper[i] as int == 'A' as int + i && lower[i] as int == 'a' as int + i
    ensures c in upper <==> 'A' <= c <= 'Z'
    ensures 'A' <= c <= 'Z' ==> exists i :: 0 <= i < 26 && c == upper[i] && lower[i] as int == c as int + 32
  {
    if 'A' <= c <= 'Z' {
      assert c == upper[c as int - 'A' as int];
    }
  }

  lemma LetterLowers(c: char)
    ensures Lowers(c, if 'A' <= c <= 'Z' then (c as int + 32) as char else c)
    ensures forall d :: Lowers(c, d) ==> d == if 'A' <= c <= 'Z' then (c as int + 32) as char else c
  {
    Alphabet();
    AlphabetLowers(UPPER, LOWER, c);
  }

  ghost predicate AllLowers(s: string, t: string) { |t| == |s| && forall i :: 0 <= i < |s| ==> Lowers(s[i], t[i]) }

  lemma AllLowersStep(s: string, t: string)
    requires s != "" && t != ""
    ensures AllLowers(s, t) <==> Lowers(s[0], t[0]) && AllLowers(s[1..], t[1..])
  {
    hide Lowers;
    if Lowers(s[0], t[0]) && AllLowers(s[1..], t[1..]) {
      forall i | 0 <= i < |s| ensures Lowers(s[i], t[i]) {
        if i > 0 {
          assert Lowers(s[1..][i - 1], t[1..][i - 1]);
        }
      }
    }
  }

  lemma {:induction false} LowersAllOfIt(s: string, t: string)
    ensures Lower(s) == t <==> AllLowers(s, t)
  {
    hide *;
    if s == "" || t == "" {
      NothingLowers(s, t);
    } else {
      LowersAllOfIt(s[1..], t[1..]);
      AllLowersStep(s, t);
      LowerStep(s, t);
    }
  }

  lemma NothingLowers(s: string, t: string)
    requires s == "" || t == ""
    ensures Lower(s) == t <==> s == t
    ensures AllLowers(s, t) <==> s == t
  {
    hide Lowers;
  }

  lemma LowerStep(s: string, t: string)
    requires s != "" && t != ""
    ensures Lower(s) == t <==> Lowers(s[0], t[0]) && Lower(s[1..]) == t[1..]
  {
    LetterLowers(s[0]);
    hide Lowers;
    assert t == [t[0]] + t[1..];
    assert Lower(s)[0] == (if 'A' <= s[0] <= 'Z' then (s[0] as int + 32) as char else s[0]);
    assert Lower(s)[1..] == Lower(s[1..]);
  }

  /** Lower-casing goes character by character over the alphabet. */
  lemma LowerExactly(s: string, t: string)
    ensures Lower(s) == t <==> |t| == |s| && forall i :: 0 <= i < |s| ==> Lowers(s[i], t[i])
  {
    LowersAllOfIt(s, t);
    hide Lower, Lowers;
  }

  /** `s.split(sep)` for a one-character separator. */
  function Split(s: string, sep: char): (r: seq<string>)
    ensures |r| >= 1
    ensures forall i :: 0 <= i < |r| ==> sep !in r[i]
    ensures sep !in s <==> r == [s]
  {
    if s == "" then [""]
    else
      var rest := Split(s[1..], sep);
      assert s == [s[0]] + s[1..];
      var r := if s[0] == sep then [""] + rest else [[s[0]] + rest[0]] + rest[1..];
      assert r == [s] ==> r[0][1..] == s[1..];
      assert s[0] != sep ==> r[0][1..] == rest[0];
      r
  }

  function Join(parts: seq<string>, sep: string): string {
    if parts == [] then ""
    else if |parts| == 1 then parts[0]
    else parts[0] + sep + Join(parts[1..], sep)
  }

  lemma {:induction false} SplitCons(head: string, sep: char, tail: string)
    requires sep !in head
    ensures Split(head + [sep] + tail, sep) == [head] + Split(tail, sep)
  {
    var s := head + [sep] + tail;
    if head == "" {
      assert s[1..] == tail;
    } else {
      assert s[1..] == head[1..] + [sep] + tail;
      SplitCons(head[1..], sep, tail);
      assert [head[0]] + head[1..] == head;
    }
  }

  /** Splitting undoes joining when no part holds the separator. */
  lemma {:induction false} SplitJoin(parts: seq<string>, sep: char)
    requires parts != []
    requires forall i :: 0 <= i < |parts| ==> sep !in parts[i]
    ensures Split(Join(parts, [sep]), sep) == parts
  {
    if |parts| == 1 {
      assert parts == [parts[0]];
    } else {
      SplitJoin(parts[1..], sep);
      SplitCons(parts[0], sep, Join(parts[1..], [sep]));
    }
  }

  /** Joining undoes splitting. */
  lemma {:induction false} JoinSplit(s: string, sep: char)
    ensures Join(Split(s, sep), [sep]) == s
  {
    if s != "" {
      JoinSplit(s[1..], sep);
      var rest := Split(s[1..], sep);
      assert s == [s[0]] + s[1..];
      if s[0] == sep {
        assert Split(s, sep) == [""] + rest;
        assert ([""] + rest)[1..] == rest;
        assert "" + [sep] + s[1..] == s;
      } else {
        FirstExtended(s[0], rest, [sep]);
      }
    }
  }

  lemma FirstExtended(c: char, parts: seq<string>, sep: string)
    requires parts != []
    ensures Join([[c] + parts[0]] + parts[1..], sep) == [c] + Join(parts, sep)
  {
    var longer := [[c] + parts[0]] + parts[1..];
    assert longer[1..] == parts[1..];
    if |parts| > 1 {
      assert [c] + parts[0] + sep + Join(parts[1..], sep) == [c] + (parts[0] + sep + Join(parts[1..], sep));
    }
  }

  lemma {:induction false} JoinAppend(a: seq<string>, b: seq<string>, sep: string)
    requires a != [] && b != []
    ensures Join(a + b, sep) == Join(a, sep) + sep + Join(b, sep)
  {
    if |a| == 1 {
      assert (a + b)[1..] == b;
    } else {
      assert (a + b)[1..] == a[1..] + b;
      JoinAppend(a[1..], b, sep);
    }
  }

  /** `str(n)` for an integer. */
  function Decimal(n: int): string {
    if n < 0 then "-" + DecimalNat(-n) else DecimalNat(n)
  }

  function DecimalNat(n: nat): string {
    if n < 10 then [('0' as int + n) as char] else DecimalNat(n / 10) + [('0' as int + n % 10) as char]
  }
}
