/** Which keys of agent.yml a render would change on a running node. */
module AgentImmutable {
  import opened Text
  import Addresses

  /** A parsed YAML value; `Other` is any further scalar, with the text `str` gives it. */
  datatype Yaml =
    | Null
    | Bool(b: bool)
    | Int(n: int)
    | Str(s: string)
    | Other(text: string)
    | List(items: seq<Yaml>)
    | Map(fields: map<string, Yaml>)

  const IMMUTABLE_KEYS := [
    "store.data_dir", "metadata.admin_token_hash", "metadata.listen_addr", "backups.key",
    "backups.borg.ssh.user", "backups.borg.ssh.host", "backups.borg.ssh.port", "backups.borg.ssh.host_path"]

  /** `_load` of what was read: nothing, or a document that must be a mapping. */
  function Load(doc: Option<Yaml>): Option<Yaml> {
    match doc
    case None => Some(Map(map[]))
    case Some(Null) => Some(Map(map[]))
    case Some(y) => if y.Map? then Some(y) else None
  }

  /** The value at a path of keys, if every step leads through a mapping that has it. */
  function At(y: Yaml, parts: seq<string>): Option<Yaml>
    decreases |parts|
  {
    if parts == [] then Some(y)
    else if y.Map? && parts[0] in y.fields then At(y.fields[parts[0]], parts[1..])
    else None
  }

  /** `_get`. */
  method Get(doc: Yaml, path: string) returns (found: Option<Yaml>)
    ensures found == At(doc, Split(path, '.'))
  {
    hide Split;
    var parts := Split(path, '.');
    var cur := doc;
    for i := 0 to |parts|
      invariant At(doc, parts) == At(cur, parts[i..])
    {
      var part := parts[i];
      if !cur.Map? || part !in cur.fields {
        return None;
      }
      assert parts[i..][1..] == parts[i + 1..];
      cur := cur.fields[part];
    }
    return Some(cur);
  }

  /** What is compared: a scalar as its text, null as the empty text. */
  function Canonical(y: Yaml): Yaml {
    match y
    case Null => Str("")
    case Bool(b) => Str(if b then "True" else "False")
    case Int(n) => Str(Decimal(n))
    case Other(text) => Str(text)
    case _ => y
  }

  /** `_digest`; `hash` stands for the SHA-256 of the canonical JSON. */
  function Digest(value: Option<Yaml>, hash: Yaml -> string): Option<string> {
    match value case None => None case Some(y) => Some(hash(Canonical(y)))
  }

  datatype Change = Changed | Added | Removed

  datatype Entry = Entry(key: string, change: Change)

  function ChangeOf(before: Option<string>, after: Option<string>): Option<Change> {
    if before == after then None
    else if before.None? then Some(Added)
    else if after.None? then Some(Removed)
    else Some(Changed)
  }

  function KeyChange(cur: Yaml, new_: Yaml, key: string, hash: Yaml -> string): Option<Change> {
    ChangeOf(Digest(At(cur, Split(key, '.')), hash), Digest(At(new_, Split(key, '.')), hash))
  }

  function Keys(keys: seq<string>): seq<string> { if keys == [] then IMMUTABLE_KEYS else keys }

  function Changes(cur: Yaml, new_: Yaml, keys: seq<string>, hash: Yaml -> string): seq<Entry> {
    if keys == [] then []
    else
      var n := |keys| - 1;
      var change := KeyChange(cur, new_, keys[n], hash);
      Changes(cur, new_, keys[..n], hash) + if change.Some? then [Entry(keys[n], change.value)] else []
  }

  /** `immutable_changes`; None where a document is not a mapping. */
  method ImmutableChanges(current: Option<Yaml>, rendered: Option<Yaml>, keys: seq<string>, hash: Yaml -> string)
    returns (out: Option<seq<Entry>>)
    ensures out.None? <==> Load(current).None? || Load(rendered).None?
    ensures out.Some? ==> out.value == Changes(Load(current).value, Load(rendered).value, Keys(keys), hash)
  {
    hide Split, At, Canonical;
    if Load(current).None? || Load(rendered).None? {
      return None;
    }
    var cur, new_ := Load(current).value, Load(rendered).value;
    var all := Keys(keys);
    var list: seq<Entry> := [];
    for i := 0 to |all|
      invariant list == Changes(cur, new_, all[..i], hash)
    {
      assert all[..i + 1][..i] == all[..i];
      var key := all[i];
      var x := Get(cur, key);
      var y := Get(new_, key);
      var a, b := Digest(x, hash), Digest(y, hash);
      if a == b {
        continue;
      }
      var change := if a.None? then Added else if b.None? then Removed else Changed;
      list := list + [Entry(key, change)];
    }
    assert all[..|all|] == all;
    out := Some(list);
  }

  // -------------------------------------------------------------------------
  // What a reported change means
  // -------------------------------------------------------------------------

  ghost predicate Injective(hash: Yaml -> string) { forall a, b :: hash(a) == hash(b) ==> a == b }

  /** Both absent, or both there and meaning the same to the agent. */
  predicate SameSetting(a: Option<Yaml>, b: Option<Yaml>) {
    (a.None? && b.None?) || (a.Some? && b.Some? && Canonical(a.value) == Canonical(b.value))
  }

  function Setting(y: Yaml, key: string): Option<Yaml> { At(y, Split(key, '.')) }

  lemma {:induction false} ChangesMembers(cur: Yaml, new_: Yaml, keys: seq<string>, hash: Yaml -> string)
    ensures forall e :: e in Changes(cur, new_, keys, hash) <==>
              e.key in keys && KeyChange(cur, new_, e.key, hash) == Some(e.change)
  {
    hide KeyChange;
    if keys != [] {
      var n := |keys| - 1;
      ChangesMembers(cur, new_, keys[..n], hash);
      assert keys == keys[..n] + [keys[n]];
    }
  }

  /** With an injective hash, a key is reported exactly when its setting differs, and as what it is:
      absent before, absent after, or there and different. */
  lemma ReportedExactly(cur: Yaml, new_: Yaml, keys: seq<string>, hash: Yaml -> string, key: string)
    requires Injective(hash) && key in keys
    ensures var a, b := Setting(cur, key), Setting(new_, key);
            var out := Changes(cur, new_, keys, hash);
            && ((exists change :: Entry(key, change) in out) <==> !SameSetting(a, b))
            && (Entry(key, Added) in out <==> a.None? && b.Some?)
            && (Entry(key, Removed) in out <==> a.Some? && b.None?)
            && (Entry(key, Changed) in out <==> a.Some? && b.Some? && Canonical(a.value) != Canonical(b.value))
  {
    hide Changes, Split, At, Canonical;
    ChangesMembers(cur, new_, keys, hash);
    var change := KeyChange(cur, new_, key, hash);
    assert change.Some? ==> Entry(key, change.value) in Changes(cur, new_, keys, hash);
  }

  /** Numbers and texts that read the same are one setting, null is the empty text, and absent is
      neither. */
  lemma ScalarsCompareAsText(n: int, y: Yaml)
    ensures SameSetting(Some(Int(n)), Some(Str(Decimal(n))))
    ensures SameSetting(Some(Null), Some(Str("")))
    ensures !SameSetting(None, Some(y)) && !SameSetting(Some(y), None)
    ensures y.List? || y.Map? ==> forall z :: SameSetting(Some(y), Some(z)) <==> y == z
  {
  }

  // -------------------------------------------------------------------------
  // Swapping, and doing nothing
  // -------------------------------------------------------------------------

  function Mirror(c: Change): Change {
    match c case Changed => Changed case Added => Removed case Removed => Added
  }

  function Mirrored(out: seq<Entry>): seq<Entry> {
    seq(|out|, i requires 0 <= i < |out| => Entry(out[i].key, Mirror(out[i].change)))
  }

  /** Swapping the documents reports the same keys in the same order, added and removed exchanged. */
  lemma {:induction false} SwapMirrors(cur: Yaml, new_: Yaml, keys: seq<string>, hash: Yaml -> string)
    ensures Changes(new_, cur, keys, hash) == Mirrored(Changes(cur, new_, keys, hash))
  {
    hide Digest, Split, At;
    if keys != [] {
      var n := |keys| - 1;
      SwapMirrors(cur, new_, keys[..n], hash);
      MirroredAppends(Changes(cur, new_, keys[..n], hash), keys[n], Changed);
      MirroredAppends(Changes(cur, new_, keys[..n], hash), keys[n], Added);
      MirroredAppends(Changes(cur, new_, keys[..n], hash), keys[n], Removed);
      hide Mirrored;
    }
  }

  lemma MirroredAppends(out: seq<Entry>, key: string, change: Change)
    ensures Mirrored(out + [Entry(key, change)]) == Mirrored(out) + [Entry(key, Mirror(change))]
    ensures out + [] == out && Mirrored(out) + [] == Mirrored(out)
  {
  }

  ghost predicate NoChange(a: Yaml, b: Yaml, keys: seq<string>, hash: Yaml -> string) {
    Changes(a, b, keys, hash) == []
  }

  lemma NoChangeExactly(a: Yaml, b: Yaml, keys: seq<string>, hash: Yaml -> string)
    ensures NoChange(a, b, keys, hash) <==>
            forall key :: key in keys ==> Digest(Setting(a, key), hash) == Digest(Setting(b, key), hash)
  {
    hide Changes, Digest, Setting, Split, At;
    ChangesMembers(a, b, keys, hash);
    var out := Changes(a, b, keys, hash);
    if out != [] {
      assert out[0] in out;
      assert Digest(Setting(a, out[0].key), hash) != Digest(Setting(b, out[0].key), hash) by {
        SettingIsAt(a, b, out[0].key);
      }
    }
    forall key | key in keys && out == [] ensures Digest(Setting(a, key), hash) == Digest(Setting(b, key), hash) {
      SettingIsAt(a, b, key);
      ChangeReported(a, b, keys, hash, key);
    }
  }

  lemma ChangeReported(a: Yaml, b: Yaml, keys: seq<string>, hash: Yaml -> string, key: string)
    requires key in keys
    ensures KeyChange(a, b, key, hash).Some? ==> Changes(a, b, keys, hash) != []
  {
    hide KeyChange, Changes;
    ChangesMembers(a, b, keys, hash);
    var change := KeyChange(a, b, key, hash);
    assert change.Some? ==> Entry(key, change.value) in Changes(a, b, keys, hash);
  }

  lemma SettingIsAt(a: Yaml, b: Yaml, key: string)
    ensures Setting(a, key) == At(a, Split(key, '.')) && Setting(b, key) == At(b, Split(key, '.'))
  {
  }

  /** "Nothing would change" is an equivalence across renders. */
  lemma NoChangeIsEquivalence(a: Yaml, b: Yaml, c: Yaml, keys: seq<string>, hash: Yaml -> string)
    ensures NoChange(a, a, keys, hash)
    ensures NoChange(a, b, keys, hash) ==> NoChange(b, a, keys, hash)
    ensures NoChange(a, b, keys, hash) && NoChange(b, c, keys, hash) ==> NoChange(a, c, keys, hash)
  {
    hide NoChange, Digest, Setting;
    NoChangeExactly(a, a, keys, hash);
    NoChangeExactly(a, b, keys, hash);
    NoChangeExactly(b, a, keys, hash);
    NoChangeExactly(b, c, keys, hash);
    NoChangeExactly(a, c, keys, hash);
  }

  // -------------------------------------------------------------------------
  // The frame
  // -------------------------------------------------------------------------

  function FieldsOf(y: Yaml): map<string, Yaml> { if y.Map? then y.fields else map[] }

  /** The document with `v` at `parts`, or with nothing there; mappings are made on the way. */
  function Rewrite(y: Yaml, parts: seq<string>, v: Option<Yaml>): Yaml
    requires parts != []
    decreases |parts|
  {
    var fields := FieldsOf(y);
    if |parts| == 1 then Map(if v.Some? then fields[parts[0] := v.value] else fields - {parts[0]})
    else
      var child := if parts[0] in fields then fields[parts[0]] else Map(map[]);
      Map(fields[parts[0] := Rewrite(child, parts[1..], v)])
  }

  /** Neither path leads through the other. */
  ghost predicate Unrelated(a: seq<string>, b: seq<string>) { !(a <= b) && !(b <= a) }

  lemma {:induction false} RewriteElsewhere(y: Yaml, p: seq<string>, q: seq<string>, v: Option<Yaml>)
    requires p != [] && Unrelated(p, q)
    ensures At(Rewrite(y, p, v), q) == At(y, q)
    decreases |p|
  {
    assert q != [];
    if p[0] == q[0] {
      assert p == [p[0]] + p[1..] && q == [q[0]] + q[1..];
      assert |p| > 1 && Unrelated(p[1..], q[1..]);
      var fields := FieldsOf(y);
      var child := if p[0] in fields then fields[p[0]] else Map(map[]);
      RewriteElsewhere(child, p[1..], q[1..], v);
      assert At(Map(map[]), q[1..]).None?;
    }
  }

  /** Rewriting a path that neither leads through a listed key nor lies below one changes no report. */
  lemma {:induction false} RewriteKeepsReports(cur: Yaml, new_: Yaml, keys: seq<string>, hash: Yaml -> string,
                                               p: seq<string>, v: Option<Yaml>)
    requires p != []
    requires forall key :: key in keys ==> !(p <= Split(key, '.')) && !(Split(key, '.') <= p)
    ensures Changes(Rewrite(cur, p, v), new_, keys, hash) == Changes(cur, new_, keys, hash)
    ensures Changes(cur, Rewrite(new_, p, v), keys, hash) == Changes(cur, new_, keys, hash)
  {
    hide Rewrite, At, Split, Digest, ChangeOf, Unrelated;
    if keys != [] {
      var n := |keys| - 1;
      assert keys[n] in keys && forall key :: key in keys[..n] ==> key in keys;
      RewriteElsewhere(cur, p, Split(keys[n], '.'), v);
      RewriteElsewhere(new_, p, Split(keys[n], '.'), v);
      RewriteKeepsReports(cur, new_, keys[..n], hash, p, v);
    }
  }

  lemma {:induction false} RewriteThere(y: Yaml, p: seq<string>, v: Option<Yaml>)
    requires p != []
    ensures At(Rewrite(y, p, v), p) == v
    decreases |p|
  {
    var fields := FieldsOf(y);
    if |p| == 1 {
      assert p[1..] == [];
    } else {
      var child := if p[0] in fields then fields[p[0]] else Map(map[]);
      RewriteThere(child, p[1..], v);
    }
  }

  /** A rewrite at a listed key itself is reported, unless it leaves the setting the same. */
  lemma RewriteOfKeyIsReported(cur: Yaml, keys: seq<string>, hash: Yaml -> string, key: string, v: Option<Yaml>)
    requires Injective(hash) && key in keys
    ensures (exists change :: Entry(key, change) in Changes(cur, Rewrite(cur, Split(key, '.'), v), keys, hash))
            <==> !SameSetting(Setting(cur, key), v)
  {
    hide Rewrite, Changes, Canonical;
    RewriteThere(cur, Split(key, '.'), v);
    ReportedExactly(cur, Rewrite(cur, Split(key, '.'), v), keys, hash, key);
    hide At, Split;
  }

  // -------------------------------------------------------------------------
  // What a setting reads as
  // -------------------------------------------------------------------------

  /** `str` of a whole number names that number and no other. */
  lemma DecimalExactly(m: int, n: int)
    ensures Decimal(m) == Decimal(n) <==> m == n
    ensures n >= 0 ==> AllDigits(Decimal(n)) && Addresses.DecimalValue(Decimal(n)) == n
                       && (n > 0 ==> Decimal(n)[0] != '0') && (n == 0 ==> Decimal(n) == "0")
    ensures n < 0 ==> Decimal(n) == "-" + Decimal(-n)
  {
    Addresses.DecimalFacts(if m < 0 then -m else m);
    Addresses.DecimalFacts(if n < 0 then -n else n);
    assert !IsDigit('-');
    assert n == 0 ==> DecimalNat(0) == "0";
    hide DecimalNat, Addresses.DecimalValue;
    if m < 0 && n < 0 && Decimal(m) == Decimal(n) {
      assert Decimal(m)[1..] == DecimalNat(-m) && Decimal(n)[1..] == DecimalNat(-n);
    }
  }

  /** Scalars by the text the agent is given: nothing for null, Python's words for truth values, digits for a
      number. Two settings that are scalars are the same exactly when these texts are. */
  ghost predicate ReadsAs(y: Yaml, text: string) {
    match y
    case Null => text == ""
    case Bool(b) => text == if b then "True" else "False"
    case Int(n) => text == Decimal(n)
    case Str(s) => text == s
    case Other(t) => text == t
    case _ => false
  }

  lemma SameTexts(a: Yaml, b: Yaml)
    requires !a.List? && !a.Map?
    ensures SameSetting(Some(a), Some(b)) <==> exists text :: ReadsAs(a, text) && ReadsAs(b, text)
    ensures exists text :: ReadsAs(a, text)
  {
    hide Decimal;
    var text := Canonical(a).s;
    assert ReadsAs(a, text);
  }

  lemma NumbersDiffer(m: int, n: int)
    ensures SameSetting(Some(Int(m)), Some(Int(n))) <==> m == n
    ensures !SameSetting(Some(Bool(true)), Some(Bool(false)))
  {
    DecimalExactly(m, n);
    hide Decimal;
    assert "True" != "False";
  }

  /** The keys compared when no list is given. */
  lemma KeysExactly(keys: seq<string>)
    ensures Keys([]) == ["store.data_dir", "metadata.admin_token_hash", "metadata.listen_addr", "backups.key",
                         "backups.borg.ssh.user", "backups.borg.ssh.host", "backups.borg.ssh.port",
                         "backups.borg.ssh.host_path"]
    ensures keys != [] ==> Keys(keys) == keys
  {
  }

  /** No document, or an empty one, is a mapping without keys; one that is no mapping is an error. */
  lemma LoadExactly(y: Yaml)
    ensures Load(None) == Load(Some(Null)) == Some(Map(map[]))
    ensures y.Map? ==> Load(Some(y)) == Some(y)
    ensures !y.Map? && y != Null ==> Load(Some(y)).None?
  {
  }
}
