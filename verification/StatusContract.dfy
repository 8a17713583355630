/** The STATUS file of an archive: `key=value` lines. */
module StatusContract {
  import opened Wrappers

  // -------------------------------------------------------------------
  // Text
  // -------------------------------------------------------------------

  predicate IsSpace(c: char) {
    c == ' ' || c == '\t' || c == '\n' || c == '\r' || c == '\U{000C}'
  }

  /** Carriage return and line feed become a line feed. */
  function Normalize(s: string): string {
    if s == [] then []
    else if |s| >= 2 && s[0] == '\r' && s[1] == '\n' then "\n" + Normalize(s[2..])
    else [s[0]] + Normalize(s[1..])
  }

  /** The pieces between separators; always at least one. */
  function Split(s: string, separator: char): (r: seq<string>)
    ensures r != []
  {
    if s == [] then [""]
    else
      var rest := Split(s[1..], separator);
      if s[0] == separator then [""] + rest else [[s[0]] + rest[0]] + rest[1..]
  }

  function TrimStart(s: string): string {
    if s != [] && IsSpace(s[0]) then TrimStart(s[1..]) else s
  }

  function TrimEnd(s: string): string {
    if s != [] && IsSpace(s[|s| - 1]) then TrimEnd(s[..|s| - 1]) else s
  }

  function Trim(s: string): string {
    TrimEnd(TrimStart(s))
  }

  // -------------------------------------------------------------------
  // Parsing
  // -------------------------------------------------------------------

  type Entry = (string, string)

  predicate IsKeyChar(c: char) {
    'a' <= c <= 'z' || '0' <= c <= '9' || c == '_'
  }

  predicate IsKey(s: string) {
    s != [] && forall i | 0 <= i < |s| :: IsKeyChar(s[i])
  }

  datatype LineResult = Blank | Malformed | Parsed(entry: Entry)

  function ParseLine(raw: string): LineResult {
    var line := Trim(raw);
    if line == [] then Blank
    else
      var fields := Split(line, '=');
      if |fields| != 2 || !IsKey(Trim(fields[0])) || Trim(fields[1]) == [] then Malformed
      else Parsed((Trim(fields[0]), Trim(fields[1])))
  }

  /** The entries of the lines, if all lines are blank or well-formed. */
  function EntriesOf(lines: seq<string>): Option<seq<Entry>> {
    if lines == [] then Some([])
    else
      var before := EntriesOf(lines[..|lines| - 1]);
      match ParseLine(lines[|lines| - 1])
      case Blank => before
      case Malformed => None
      case Parsed(e) => if before.Some? then Some(before.value + [e]) else None
  }

  predicate KeysOnce(entries: seq<Entry>, relevant: set<string>) {
    forall i, j | 0 <= i < j < |entries| && entries[i].0 in relevant :: entries[i].0 != entries[j].0
  }

  function RelevantMap(entries: seq<Entry>, relevant: set<string>): map<string, string> {
    if entries == [] then map[]
    else
      var last := entries[|entries| - 1];
      var before := RelevantMap(entries[..|entries| - 1], relevant);
      if last.0 in relevant then before[last.0 := last.1] else before
  }

  function Others(entries: seq<Entry>, relevant: set<string>): seq<Entry> {
    if entries == [] then []
    else
      var last := entries[|entries| - 1];
      var before := Others(entries[..|entries| - 1], relevant);
      if last.0 in relevant then before else before + [last]
  }

  datatype Status = Status(entries: map<string, string>, unknown: seq<Entry>)

  predicate Readable(status: string, relevant: set<string>) {
    var normalized := Normalize(status);
    && '\r' !in normalized
    && var entries := EntriesOf(Split(normalized, '\n'));
       && entries.Some? && entries.value != [] && KeysOnce(entries.value, relevant)
  }

  lemma NextLine(lines: seq<string>, i: nat)
    requires i < |lines|
    ensures EntriesOf(lines[..i + 1]) == match ParseLine(lines[i])
                                         case Blank => EntriesOf(lines[..i])
                                         case Malformed => None
                                         case Parsed(e) =>
                                           if EntriesOf(lines[..i]).None? then None
                                           else Some(EntriesOf(lines[..i]).value + [e])
  {
    assert lines[..i + 1][..i] == lines[..i];
  }

  lemma NothingMeansNoEntries(entries: seq<Entry>, relevant: set<string>)
    ensures RelevantMap(entries, relevant) == map[] && Others(entries, relevant) == [] <==> entries == []
  {
    if entries != [] {
      var last := entries[|entries| - 1];
      if last.0 in relevant {
        assert last.0 in RelevantMap(entries, relevant);
      }
    }
  }

  method ParseStatus(status: string, relevant: set<string>) returns (r: Option<Status>)
    ensures r.Some? <==> Readable(status, relevant)
    ensures r.Some? ==>
              var entries := EntriesOf(Split(Normalize(status), '\n')).value;
              r.value == Status(RelevantMap(entries, relevant), Others(entries, relevant))
  {
    var normalized := Normalize(status);
    if '\r' in normalized {
      return None;
    }
    var lines := Split(normalized, '\n');
    var entries: map<string, string>, unknown: seq<Entry> := map[], [];
    ghost var seen: seq<Entry> := [];
    for i := 0 to |lines|
      invariant EntriesOf(lines[..i]) == Some(seen)
      invariant KeysOnce(seen, relevant)
      invariant entries == RelevantMap(seen, relevant) && unknown == Others(seen, relevant)
    {
      NextLine(lines, i);
      match ParseLine(lines[i]) {
        case Blank =>
        case Malformed =>
          MalformedStays(lines, i);
          return None;
        case Parsed(entry) =>
          OneMoreEntry(seen, entry, relevant);
          MapHasKeys(seen, relevant, entry.0);
          seen := seen + [entry];
          if entry.0 in relevant {
            if entry.0 in entries {
              DuplicateStays(lines, i + 1, relevant);
              return None;
            }
            entries := entries[entry.0 := entry.1];
          } else {
            unknown := unknown + [entry];
          }
      }
    }
    assert lines[..|lines|] == lines;
    NothingMeansNoEntries(seen, relevant);
    if entries == map[] && unknown == [] {
      return None;
    }
    r := Some(Status(entries, unknown));
  }

  predicate HasKey(entries: seq<Entry>, k: string) {
    exists i | 0 <= i < |entries| :: entries[i].0 == k
  }

  lemma {:induction false} MapHasKeys(entries: seq<Entry>, relevant: set<string>, k: string)
    ensures k in RelevantMap(entries, relevant) <==> k in relevant && HasKey(entries, k)
  {
    if entries != [] {
      var before := entries[..|entries| - 1];
      MapHasKeys(before, relevant, k);
      if HasKey(before, k) {
        var i :| 0 <= i < |before| && before[i].0 == k;
        assert entries[i].0 == k;
      }
    }
  }

  lemma OneMoreEntry(seen: seq<Entry>, entry: Entry, relevant: set<string>)
    requires KeysOnce(seen, relevant)
    ensures KeysOnce(seen + [entry], relevant) <==> !(entry.0 in relevant && HasKey(seen, entry.0))
    ensures RelevantMap(seen + [entry], relevant) ==
            if entry.0 in relevant then RelevantMap(seen, relevant)[entry.0 := entry.1] else RelevantMap(seen, relevant)
    ensures Others(seen + [entry], relevant) ==
            if entry.0 in relevant then Others(seen, relevant) else Others(seen, relevant) + [entry]
  {
    var more := seen + [entry];
    assert more[..|seen|] == seen;
    if entry.0 in relevant && HasKey(seen, entry.0) {
      var i :| 0 <= i < |seen| && seen[i].0 == entry.0;
      assert more[i].0 == more[|seen|].0;
    }
  }

  lemma {:induction false} MalformedStays(lines: seq<string>, i: nat)
    requires i < |lines| && ParseLine(lines[i]).Malformed?
    ensures EntriesOf(lines) == None
  {
    if i < |lines| - 1 {
      MalformedStays(lines[..|lines| - 1], i);
    }
  }

  /** More lines only add entries at the end. */
  lemma {:induction false} EntriesGrow(lines: seq<string>, i: nat)
    requires i <= |lines| && EntriesOf(lines).Some?
    ensures EntriesOf(lines[..i]).Some? && EntriesOf(lines[..i]).value <= EntriesOf(lines).value
  {
    if i == |lines| {
      assert lines[..i] == lines;
    } else {
      var init := lines[..|lines| - 1];
      EntriesGrow(init, i);
      assert init[..i] == lines[..i];
    }
  }

  lemma DuplicateStays(lines: seq<string>, i: nat, relevant: set<string>)
    requires i <= |lines| && EntriesOf(lines[..i]).Some? && !KeysOnce(EntriesOf(lines[..i]).value, relevant)
    ensures EntriesOf(lines).Some? ==> !KeysOnce(EntriesOf(lines).value, relevant)
  {
    if EntriesOf(lines).Some? {
      EntriesGrow(lines, i);
      var few, all := EntriesOf(lines[..i]).value, EntriesOf(lines).value;
      var j, k :| 0 <= j < k < |few| && few[j].0 in relevant && few[j].0 == few[k].0;
      assert all[j] == few[j] && all[k] == few[k];
    }
  }

  // -------------------------------------------------------------------
  // Accepted lines
  // -------------------------------------------------------------------

  /** Only spaces, tabs, line feeds, carriage returns and form feeds. */
  ghost predicate Space(s: string) {
    forall i | 0 <= i < |s| ::
      s[i] == ' ' || s[i] == '\t' || s[i] == '\n' || s[i] == '\r' || s[i] == '\U{000C}'
  }

  /** Neither end is white space. */
  ghost predicate Tight(s: string) {
    s != [] ==> !IsSpace(s[0]) && !IsSpace(s[|s| - 1])
  }

  ghost predicate Padded(s: string, a: string, t: string, b: string) {
    s == a + t + b && Space(a) && Space(b)
  }

  lemma {:induction false} TrimStartTrims(s: string) returns (a: string)
    ensures s == a + TrimStart(s) && Space(a)
    ensures TrimStart(s) == [] || !IsSpace(TrimStart(s)[0])
  {
    if s != [] && IsSpace(s[0]) {
      var rest := TrimStartTrims(s[1..]);
      a := [s[0]] + rest;
      assert s == [s[0]] + s[1..];
    } else {
      a := "";
    }
  }

  lemma {:induction false} TrimEndTrims(s: string) returns (b: string)
    ensures s == TrimEnd(s) + b && Space(b)
    ensures TrimEnd(s) == [] || !IsSpace(TrimEnd(s)[|TrimEnd(s)| - 1])
  {
    if s != [] && IsSpace(s[|s| - 1]) {
      var rest := TrimEndTrims(s[..|s| - 1]);
      b := rest + [s[|s| - 1]];
      assert s == s[..|s| - 1] + [s[|s| - 1]];
    } else {
      b := "";
    }
  }

  lemma TrimTrims(s: string) returns (a: string, b: string)
    ensures Padded(s, a, Trim(s), b) && Tight(Trim(s))
  {
    a := TrimStartTrims(s);
    b := TrimEndTrims(TrimStart(s));
    var t := TrimStart(s);
    assert s == a + Trim(s) + b;
    if Trim(s) != [] {
      assert Trim(s)[0] == t[0];
    }
  }

  lemma {:induction false} TrimStartSkips(a: string, s: string)
    requires Space(a)
    ensures TrimStart(a + s) == TrimStart(s)
  {
    if a == [] {
      assert a + s == s;
    } else {
      assert IsSpace(a[0]) && (a + s)[1..] == a[1..] + s;
      TrimStartSkips(a[1..], s);
    }
  }

  lemma {:induction false} TrimEndSkips(s: string, b: string)
    requires Space(b)
    ensures TrimEnd(s + b) == TrimEnd(s)
  {
    if b == [] {
      assert s + b == s;
    } else {
      var init := b[..|b| - 1];
      assert IsSpace(b[|b| - 1]) && (s + b)[..|s + b| - 1] == s + init;
      TrimEndSkips(s, init);
    }
  }

  /** Trimming takes off the white space at both ends and nothing else. */
  lemma TrimExactly(s: string, t: string)
    ensures Trim(s) == t <==> Tight(t) && exists a, b :: Padded(s, a, t, b)
  {
    var x, y := TrimTrims(s);
    if Tight(t) && exists a, b :: Padded(s, a, t, b) {
      var a, b :| Padded(s, a, t, b);
      if t == [] {
        TrimStartSkips(s, "");
        assert s + "" == s && Space(s);
      } else {
        assert s == a + (t + b);
        TrimStartSkips(a, t + b);
        assert TrimStart(t + b) == t + b;
        TrimEndSkips(t, b);
      }
    }
  }

  /** A key: lower-case letters, digits and underscores, at least one. */
  ghost predicate PlainKey(s: string) {
    s != [] && forall c | c in s :: 'a' <= c <= 'z' || '0' <= c <= '9' || c == '_'
  }

  lemma KeyExactly(s: string)
    ensures IsKey(s) <==> PlainKey(s)
  {
    assert forall i | 0 <= i < |s| :: s[i] in s;
  }

  lemma {:induction false} SplitInTwo(s: string, k: string, v: string)
    ensures Split(s, '=') == [k, v] <==> s == k + "=" + v && '=' !in k && '=' !in v
  {
    if '=' in s {
      var i := FirstEquals(s);
      SplitAtFirst(s[..i], '=', s[i + 1..]);
      assert s == s[..i] + ['='] + s[i + 1..];
      SplitWhole(s[i + 1..]);
      if Split(s, '=') == [k, v] {
        assert Split(s, '=')[0] == s[..i] && Split(s, '=')[1..] == Split(s[i + 1..], '=') == [v];
      }
      if s == k + "=" + v && '=' !in k && '=' !in v {
        SplitAtFirst(k, '=', v);
        SplitAtFirst(v, '=', "");
        assert s == k + ['='] + v;
      }
    } else {
      SplitAtFirst(s, '=', "");
      HasEquals(k, v);
    }
  }

  lemma HasEquals(k: string, v: string)
    ensures '=' in k + "=" + v
  {
    assert (k + "=" + v)[|k|] == '=';
  }

  lemma FirstEquals(s: string) returns (i: nat)
    requires '=' in s
    ensures i < |s| && s[i] == '=' && '=' !in s[..i]
  {
    i := 0;
    while s[i] != '='
      invariant i < |s| && '=' !in s[..i]
      invariant '=' in s[i..]
      decreases |s| - i
    {
      assert s[..i + 1] == s[..i] + [s[i]] && s[i..] == [s[i]] + s[i + 1..];
      i := i + 1;
    }
  }

  lemma {:induction false} SplitWhole(s: string)
    ensures |Split(s, '=')| == 1 <==> '=' !in s
    ensures '=' !in s ==> Split(s, '=') == [s]
  {
    if s != [] {
      SplitWhole(s[1..]);
      assert s == [s[0]] + s[1..];
    }
  }

  /** A line that spells this entry: white space anywhere around the key and around
      the value, one equals sign between them. */
  ghost predicate Spells(line: string, entry: Entry, left: string, right: string) {
    && line == left + "=" + right
    && (exists a, b :: Padded(left, a, entry.0, b))
    && (exists a, b :: Padded(right, a, entry.1, b))
  }

  /** A line is accepted for an entry exactly when it spells it, with a plain key and
      a nonempty value without an equals sign that neither starts nor ends with
      white space. */
  lemma LineExactly(raw: string, entry: Entry)
    ensures ParseLine(raw) == Parsed(entry) <==>
              && PlainKey(entry.0) && entry.1 != [] && Tight(entry.1) && '=' !in entry.1
              && exists left, right :: Spells(raw, entry, left, right)
  {
    if ParseLine(raw) == Parsed(entry) {
      AcceptedLineSpells(raw, entry);
    }
    if && PlainKey(entry.0) && entry.1 != [] && Tight(entry.1) && '=' !in entry.1
       && exists left, right :: Spells(raw, entry, left, right)
    {
      var left, right :| Spells(raw, entry, left, right);
      SpelledLineIsAccepted(raw, entry, left, right);
    }
  }

  lemma AcceptedFields(raw: string, entry: Entry) returns (k: string, v: string)
    requires ParseLine(raw) == Parsed(entry)
    ensures Trim(raw) == k + "=" + v && '=' !in v && Trim(k) == entry.0 && Trim(v) == entry.1
    ensures PlainKey(entry.0) && entry.1 != []
  {
    var fields := Split(Trim(raw), '=');
    k, v := fields[0], fields[1];
    assert fields == [k, v];
    SplitInTwo(Trim(raw), k, v);
    KeyExactly(entry.0);
  }

  lemma AcceptedLineSpells(raw: string, entry: Entry)
    requires ParseLine(raw) == Parsed(entry)
    ensures PlainKey(entry.0) && entry.1 != [] && Tight(entry.1) && '=' !in entry.1
    ensures exists left, right :: Spells(raw, entry, left, right)
  {
    var k, v := AcceptedFields(raw, entry);
    var a, b := TrimTrims(raw);
    var c, d := TrimTrims(k);
    var e, f := TrimTrims(v);
    Regrouped(a, k, v, b);
    PaddedMore(a, k, c, entry.0, d, "");
    PaddedMore("", v, e, entry.1, f, b);
    FieldsSpell(raw, entry, a, k, v, b);
  }

  lemma FieldsSpell(raw: string, entry: Entry, a: string, k: string, v: string, b: string)
    requires raw == (a + k) + "=" + (v + b)
    requires exists x, y :: Padded(a + k + "", x, entry.0, y)
    requires exists x, y :: Padded("" + v + b, x, entry.1, y)
    ensures exists left, right :: Spells(raw, entry, left, right)
  {
    assert a + k + "" == a + k && "" + v + b == v + b;
    assert Spells(raw, entry, a + k, v + b);
  }

  lemma Regrouped(a: string, l: string, r: string, b: string)
    ensures a + (l + "=" + r) + b == (a + l) + "=" + (r + b)
  {
  }

  lemma PaddedMore(p: string, s: string, a: string, t: string, b: string, q: string)
    requires Padded(s, a, t, b) && Space(p) && Space(q)
    ensures Padded(p + s + q, p + a, t, b + q)
  {
  }

  lemma NoEquals(a: string, t: string, b: string)
    requires Space(a) && Space(b) && '=' !in t
    ensures '=' !in a + t + b
  {
  }

  lemma SpelledLineIsAccepted(raw: string, entry: Entry, left: string, right: string)
    requires PlainKey(entry.0) && entry.1 != [] && Tight(entry.1) && '=' !in entry.1
    requires Spells(raw, entry, left, right)
    ensures ParseLine(raw) == Parsed(entry)
  {
    var k, v := entry.0, entry.1;
    var a, b :| Padded(left, a, k, b);
    var c, d :| Padded(right, c, v, d);
    KeyIsTight(k);
    var line := k + b + "=" + c + v;
    assert Padded(raw, a, line, d);
    assert Tight(line);
    TrimExactly(raw, line);
    assert k + b == "" + k + b && c + v == c + v + "";
    NoEquals("", k, b);
    NoEquals(c, v, "");
    assert line == (k + b) + "=" + (c + v);
    SplitInTwo(line, k + b, c + v);
    assert Padded(k + b, "", k, b) && Padded(c + v, c, v, "");
    TrimExactly(k + b, k);
    TrimExactly(c + v, v);
    KeyExactly(k);
  }

  lemma KeyIsTight(k: string)
    requires PlainKey(k)
    ensures Tight(k) && '=' !in k
  {
    assert k[0] in k && k[|k| - 1] in k;
  }

  /** A line is skipped exactly when it is white space. */
  lemma BlankExactly(raw: string)
    ensures ParseLine(raw) == Blank <==> Space(raw)
  {
    TrimExactly(raw, "");
    if Space(raw) {
      assert Padded(raw, raw, "", "");
    }
    if Trim(raw) == "" {
      var a, b :| Padded(raw, a, "", b);
      assert raw == a + b;
    }
  }

  /** A line with an underscored key and some white space. */
  lemma KnownLine()
    ensures ParseLine(" a_1 =\tx") == Parsed(("a_1", "x"))
  {
    KnownPadding();
    assert " a_1 =\tx" == " a_1 " + "=" + "\tx";
    assert Spells(" a_1 =\tx", ("a_1", "x"), " a_1 ", "\tx");
    SpelledLineIsAccepted(" a_1 =\tx", ("a_1", "x"), " a_1 ", "\tx");
  }

  lemma KnownPadding()
    ensures Padded(" a_1 ", " ", "a_1", " ") && Padded("\tx", "\t", "x", "")
  {
  }

  // -------------------------------------------------------------------
  // Rendering
  // -------------------------------------------------------------------

  datatype Line = Line(key: string, value: string, crlf: bool)

  /** A value that survives trimming and splitting. */
  predicate IsCleanValue(s: string) {
    && s != []
    && !IsSpace(s[0]) && !IsSpace(s[|s| - 1])
    && '=' !in s && '\n' !in s && '\r' !in s
  }

  predicate Clean(lines: seq<Line>) {
    forall i | 0 <= i < |lines| :: IsKey(lines[i].key) && IsCleanValue(lines[i].value)
  }

  function Body(l: Line): string {
    l.key + "=" + l.value
  }

  function Render(lines: seq<Line>): string {
    if lines == [] then ""
    else Body(lines[0]) + (if lines[0].crlf then "\r\n" else "\n") + Render(lines[1..])
  }

  function Entries(lines: seq<Line>): (r: seq<Entry>)
    ensures |r| == |lines|
    ensures forall i | 0 <= i < |lines| :: r[i] == (lines[i].key, lines[i].value)
  {
    seq(|lines|, i requires 0 <= i < |lines| => (lines[i].key, lines[i].value))
  }

  function Bodies(lines: seq<Line>): (r: seq<string>)
    ensures |r| == |lines|
    ensures forall i | 0 <= i < |lines| :: r[i] == Body(lines[i])
  {
    seq(|lines|, i requires 0 <= i < |lines| => Body(lines[i]))
  }

  lemma {:induction false} NormalizeSkips(a: string, b: string)
    requires '\r' !in a
    ensures Normalize(a + b) == a + Normalize(b)
  {
    if a == [] {
      assert a + b == b;
    } else {
      assert (a + b)[1..] == a[1..] + b;
      NormalizeSkips(a[1..], b);
      assert a == [a[0]] + a[1..];
      assert (a + b)[0] != '\r' by {
        assert (a + b)[0] == a[0] && a[0] in a;
      }
    }
  }

  lemma {:induction false} SplitAtFirst(a: string, c: char, b: string)
    requires c !in a
    ensures Split(a + [c] + b, c) == [a] + Split(b, c)
    ensures Split(a, c) == [a]
  {
    var s := a + [c] + b;
    if a == [] {
      assert s[1..] == b;
    } else {
      assert s[1..] == a[1..] + [c] + b;
      SplitAtFirst(a[1..], c, b);
      assert a == [a[0]] + a[1..] && a[0] in a;
    }
  }

  lemma CleanBody(l: Line)
    requires IsKey(l.key) && IsCleanValue(l.value)
    ensures '\r' !in Body(l) && '\n' !in Body(l) && '=' !in l.key
    ensures Trim(Body(l)) == Body(l) && Trim(l.key) == l.key && Trim(l.value) == l.value
  {
  }

  lemma BodyParses(l: Line)
    requires IsKey(l.key) && IsCleanValue(l.value)
    ensures ParseLine(Body(l)) == Parsed((l.key, l.value))
  {
    CleanBody(l);
    SplitAtFirst(l.key, '=', l.value);
    SplitAtFirst(l.value, '=', "");
    assert Body(l) == l.key + ['='] + l.value;
  }

  lemma LineNormalizes(l: Line, rest: string)
    requires '\r' !in Body(l)
    ensures Normalize(Body(l) + (if l.crlf then "\r\n" else "\n") + rest) == Body(l) + "\n" + Normalize(rest)
  {
    var eol := if l.crlf then "\r\n" else "\n";
    assert Body(l) + eol + rest == Body(l) + (eol + rest);
    NormalizeSkips(Body(l), eol + rest);
    assert (eol + rest)[|eol|..] == rest;
    assert Normalize(eol + rest) == "\n" + Normalize(rest);
  }

  lemma FirstLine(lines: seq<Line>)
    requires lines != []
    ensures Bodies(lines) + [""] == [Body(lines[0])] + (Bodies(lines[1..]) + [""])
  {
  }

  lemma {:induction false} RenderedText(lines: seq<Line>)
    requires Clean(lines)
    ensures '\r' !in Normalize(Render(lines))
    ensures Split(Normalize(Render(lines)), '\n') == Bodies(lines) + [""]
  {
    if lines == [] {
    } else {
      var l, rest := lines[0], lines[1..];
      RenderedText(rest);
      CleanBody(l);
      LineNormalizes(l, Render(rest));
      var tail := Normalize(Render(rest));
      assert Normalize(Render(lines)) == Body(l) + ['\n'] + tail;
      NoReturnIn(Body(l), tail);
      SplitAtFirst(Body(l), '\n', tail);
      FirstLine(lines);
    }
  }

  lemma NoReturnIn(a: string, b: string)
    requires '\r' !in a && '\r' !in b
    ensures '\r' !in a + ['\n'] + b
  {
  }

  lemma OneMoreLine(lines: seq<string>, entries: seq<Entry>, line: string, entry: Entry)
    requires EntriesOf(lines) == Some(entries) && ParseLine(line) == Parsed(entry)
    ensures EntriesOf(lines + [line]) == Some(entries + [entry])
  {
  }

  lemma LastLine(lines: seq<Line>)
    requires lines != []
    ensures var init, last := lines[..|lines| - 1], lines[|lines| - 1];
      && Bodies(lines) == Bodies(init) + [Body(last)]
      && Entries(lines) == Entries(init) + [(last.key, last.value)]
  {
  }

  lemma {:induction false} BodiesParse(lines: seq<Line>)
    requires Clean(lines)
    ensures EntriesOf(Bodies(lines)) == Some(Entries(lines))
  {
    if lines != [] {
      var init, last := lines[..|lines| - 1], lines[|lines| - 1];
      BodiesParse(init);
      BodyParses(last);
      OneMoreLine(Bodies(init), Entries(init), Body(last), (last.key, last.value));
      LastLine(lines);
    }
  }

  /** The round trip: clean lines, in any order and with either line ending on each
      of them, are read back as what they were rendered from; they are refused
      exactly when there are none or a relevant key appears twice. */
  lemma RenderThenParse(lines: seq<Line>, relevant: set<string>)
    requires Clean(lines)
    ensures Readable(Render(lines), relevant) <==> lines != [] && KeysOnce(Entries(lines), relevant)
    ensures EntriesOf(Split(Normalize(Render(lines)), '\n')) == Some(Entries(lines))
  {
    RenderedText(lines);
    BodiesParse(lines);
    var all := Bodies(lines) + [""];
    assert all[..|all| - 1] == Bodies(lines);
  }

  /** Lines that hold the entries of a map, whatever their order, are read back as
      that map. */
  lemma {:induction false} MapComesBack(entries: seq<Entry>, m: map<string, string>, relevant: set<string>)
    requires m.Keys <= relevant && KeysOnce(entries, relevant)
    requires forall e :: e in entries <==> e.0 in m && m[e.0] == e.1
    ensures RelevantMap(entries, relevant) == m
    ensures Others(entries, relevant) == []
  {
    MapAgrees(entries, m, relevant);
    forall k | k in m
      ensures k in RelevantMap(entries, relevant)
    {
      MapHasKeys(entries, relevant, k);
      assert (k, m[k]) in entries;
      var i :| 0 <= i < |entries| && entries[i] == (k, m[k]);
      assert entries[i].0 == k;
    }
  }

  lemma {:induction false} MapAgrees(entries: seq<Entry>, m: map<string, string>, relevant: set<string>)
    requires m.Keys <= relevant
    requires forall e :: e in entries ==> e.0 in m && m[e.0] == e.1
    ensures forall k :: k in RelevantMap(entries, relevant) ==> k in m && m[k] == RelevantMap(entries, relevant)[k]
    ensures Others(entries, relevant) == []
  {
    if entries != [] {
      var last := entries[|entries| - 1];
      assert last in entries;
      MapAgrees(entries[..|entries| - 1], m, relevant);
    }
  }

  /** A map of relevant keys to clean values survives being written in any line
      order, with either line ending on every line. */
  lemma StatusRoundTrip(lines: seq<Line>, m: map<string, string>, relevant: set<string>)
    requires Clean(lines) && KeysOnce(Entries(lines), relevant) && lines != []
    requires m.Keys <= relevant
    requires forall e :: e in Entries(lines) <==> e.0 in m && m[e.0] == e.1
    ensures Readable(Render(lines), relevant)
    ensures var entries := EntriesOf(Split(Normalize(Render(lines)), '\n')).value;
      Status(RelevantMap(entries, relevant), Others(entries, relevant)) == Status(m, [])
  {
    RenderThenParse(lines, relevant);
    MapComesBack(Entries(lines), m, relevant);
  }
}
