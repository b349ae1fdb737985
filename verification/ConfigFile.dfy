/** What saveConfig writes, src/confighttp.cpp, and when parse_config reads the same entries back. */
module ConfigFile {
  import opened Basics
  import opened Config

  /** A JSON value: null, a string, or anything else with the text that dump() gives. */
  datatype Json = Null | Text(text: string) | Other(dump: string)

  predicate Skipped(v: Json) {
    v.Null? || v == Text("")
  }

  function Shown(v: Json): string {
    match v
    case Null => ""
    case Text(text) => text
    case Other(dump) => dump
  }

  function Line(k: string, v: string): string {
    k + " = " + v + "\n"
  }

  type Items = seq<(string, Json)>

  function Print(items: Items): string {
    if items == [] then ""
    else if Skipped(items[0].1) then Print(items[1..])
    else Line(items[0].0, Shown(items[0].1)) + Print(items[1..])
  }

  method SaveConfig(items: Items) returns (stream: string)
    ensures stream == Print(items)
  {
    stream := "";
    var i := 0;
    ghost var all := Print(items);
    while i < |items|
      invariant i <= |items| && stream + Print(items[i..]) == all
    {
      var (k, v) := items[i];
      assert items[i..][1..] == items[i + 1..];
      i := i + 1;
      if Skipped(v) {
        continue;
      }
      Associative(stream, Line(k, Shown(v)), Print(items[i..]));
      stream := stream + Line(k, Shown(v));
    }
    assert items[i..] == [] && stream + "" == stream;
  }

  // ----- what survives -----

  predicate CleanKey(k: string) {
    && k != "" && !Whitespace(k[0]) && !SpaceTab(k[|k| - 1])
    && forall c :: c in k ==> c != '#' && c != '=' && !Endline(c)
  }

  /** One line, or a list that closes with its last character and may go over several lines. */
  predicate CleanValue(v: string) {
    && v != "" && '#' !in v && !SpaceTab(v[0])
    && if v[0] == '[' then Close(v, 1, 1) == Some(|v|) else forall c :: c in v ==> !Endline(c)
  }

  /** The line of an entry stands at `pos`. */
  ghost predicate LineAt(s: string, pos: nat, k: string, v: string) {
    var n := pos + |k|;
    && n + 3 + |v| < |s| && (forall j :: 0 <= j < |k| ==> s[pos + j] == k[j])
    && s[n] == ' ' && s[n + 1] == '=' && s[n + 2] == ' '
    && s[n + 3..n + 3 + |v|] == v && s[n + 3 + |v|] == '\n'
  }

  lemma KeyAt(s: string, pos: nat, k: string, v: string)
    requires CleanKey(k) && LineAt(s, pos, k, v)
    ensures !Whitespace(s[pos]) && !SpaceTab(s[pos + |k| - 1]) && s[pos..pos + |k|] == k
    ensures forall j :: pos <= j < pos + |k| ==> s[j] != '#' && s[j] != '=' && !Endline(s[j])
  {
    assert s[pos + 0] == k[0] && s[pos + (|k| - 1)] == k[|k| - 1];
    forall j | pos <= j < pos + |k|
      ensures s[j] == k[j - pos] && s[j] in k
    {
      assert s[pos + (j - pos)] == k[j - pos];
    }
  }

  lemma LineStart(s: string, pos: nat, k: string, v: string)
    requires CleanKey(k) && LineAt(s, pos, k, v)
    ensures Begin(s, pos) == pos && LineEnd(s, pos) >= pos + |k| + 3 && TextEnd(s, pos) >= pos + |k| + 2
  {
    KeyAt(s, pos, k, v);
    FindIn(s, pos, |s|, c => !Whitespace(c), pos);
    var hash := Find(s, pos, LineEnd(s, pos), c => c == '#');
    assert hash >= pos + |k| + 3;
  }

  /** The key of a clean line is found, whatever the value. */
  lemma KeyFound(s: string, pos: nat, k: string, v: string)
    requires CleanKey(k) && LineAt(s, pos, k, v)
    ensures Begin(s, pos) == pos && TextEnd(s, pos) >= pos + |k| + 2
    ensures Find(s, pos, TextEnd(s, pos), c => c == '=') == pos + |k| + 1
    ensures FindLast(s, pos, pos + |k| + 1, c => !SpaceTab(c)) == pos + |k|
  {
    LineStart(s, pos, k, v);
    NameFound(s, pos, k, v, TextEnd(s, pos));
  }

  lemma NameFound(s: string, pos: nat, k: string, v: string, end: nat)
    requires CleanKey(k) && LineAt(s, pos, k, v) && pos + |k| + 2 <= end <= |s|
    ensures Find(s, pos, end, c => c == '=') == pos + |k| + 1
    ensures FindLast(s, pos, pos + |k| + 1, c => !SpaceTab(c)) == pos + |k|
  {
    KeyAt(s, pos, k, v);
    EqualsIsAt(s, pos, end, pos + |k| + 1);
    NameEndsAt(s, pos, pos + |k|);
  }

  lemma EqualsIsAt(s: string, pos: nat, end: nat, i: nat)
    requires pos <= i < end <= |s| && s[i] == '=' && forall j :: pos <= j < i ==> s[j] != '='
    ensures Find(s, pos, end, c => c == '=') == i
  {
    FindIn(s, pos, end, c => c == '=', i);
  }

  /** One blank stands between the name and the '='. */
  lemma NameEndsAt(s: string, pos: nat, i: nat)
    requires pos < i < |s| && !SpaceTab(s[i - 1]) && SpaceTab(s[i])
    ensures FindLast(s, pos, i + 1, c => !SpaceTab(c)) == i
  {
    FindLastIn(s, pos, i + 1, c => !SpaceTab(c), i);
  }

  /** There is at least the blank behind the '='. */
  lemma ValueThere(s: string, pos: nat, k: string, v: string)
    requires CleanKey(k) && LineAt(s, pos, k, v)
    ensures TextEnd(s, pos) >= pos + |k| + 2 && ValueStart(s, pos + |k| + 1, TextEnd(s, pos)) < LineEnd(s, pos)
  {
    LineStart(s, pos, k, v);
    var endc := TextEnd(s, pos);
    if endc == LineEnd(s, pos) {
      assert !SpaceTab(s[endc - 1]);
    }
  }

  /** What parse_option makes of a line with a clean key: the key, and the text from `start` to `end`. */
  ghost predicate Reads(s: string, pos: nat, k: string, start: nat, end: nat) {
    pos <= |s| && start <= end <= |s| && ParseOption(s, pos) == (end, Some((k, Strip(s[start..end]))))
  }

  lemma OptionIs(s: string, pos: nat, endName: nat, eq: nat, endl: nat, endc: nat)
    requires pos < endName <= eq < endc <= endl <= |s| && Begin(s, pos) == pos && LineEnd(s, pos) == endl
    requires TextEnd(s, pos) == endc
    requires Find(s, pos, endc, c => c == '=') == eq && FindLast(s, pos, eq, c => !SpaceTab(c)) == endName
    requires ValueStart(s, eq, endc) < endl && ValueStart(s, eq, endc) + 1 < |s|
    ensures ParseOption(s, pos) ==
      (ValueEnd(s, eq, endl, endc),
        Some((Strip(s[pos..endName]), Strip(s[ValueStart(s, eq, endc)..ValueEnd(s, eq, endl, endc)]))))
  {
  }

  lemma KeyStripped(s: string, pos: nat, k: string, v: string)
    requires CleanKey(k) && LineAt(s, pos, k, v)
    ensures Strip(s[pos..pos + |k|]) == k
  {
    KeyAt(s, pos, k, v);
    StripNothing(k);
  }

  lemma LineRead(s: string, pos: nat, k: string, v: string) returns (start: nat, end: nat)
    requires CleanKey(k) && LineAt(s, pos, k, v)
    ensures TextEnd(s, pos) >= pos + |k| + 2
    ensures start == ValueStart(s, pos + |k| + 1, TextEnd(s, pos)) < LineEnd(s, pos)
    ensures end == ValueEnd(s, pos + |k| + 1, LineEnd(s, pos), TextEnd(s, pos))
    ensures Reads(s, pos, k, start, end)
  {
    KeyFound(s, pos, k, v);
    LineEndsBefore(s, pos, k, v);
    var eq, endl, endc := pos + |k| + 1, LineEnd(s, pos), TextEnd(s, pos);
    start, end := ValueStart(s, eq, endc), ValueEnd(s, eq, endl, endc);
    ValueThere(s, pos, k, v);
    OptionIs(s, pos, pos + |k|, eq, endl, endc);
    KeyStripped(s, pos, k, v);
  }

  lemma LineEndsBefore(s: string, pos: nat, k: string, v: string)
    requires CleanKey(k) && LineAt(s, pos, k, v)
    ensures LineEnd(s, pos) <= pos + |k| + 3 + |v| < |s|
  {
    KeyFound(s, pos, k, v);
  }

  // ----- values -----

  /** Where the value of an entry begins in its line. */
  function ValueAt(pos: nat, k: string): nat {
    pos + |k| + 3
  }

  lemma ValueFound(s: string, pos: nat, k: string, v: string)
    requires CleanKey(k) && LineAt(s, pos, k, v) && v != "" && !Whitespace(v[0]) && v[0] != '#'
    ensures TextEnd(s, pos) >= pos + |k| + 2 && ValueStart(s, pos + |k| + 1, TextEnd(s, pos)) == ValueAt(pos, k)
    ensures s[ValueAt(pos, k)] == v[0] && ValueAt(pos, k) < LineEnd(s, pos)
  {
    LineStart(s, pos, k, v);
    KeyAt(s, pos, k, v);
    var at := ValueAt(pos, k);
    assert s[at] == s[at..at + |v|][0];
    assert TextEnd(s, pos) > at;
    FindIn(s, pos + |k| + 2, TextEnd(s, pos), c => !SpaceTab(c), at);
  }

  lemma LineEndIs(s: string, pos: nat, k: string, v: string)
    requires CleanKey(k) && LineAt(s, pos, k, v) && forall c :: c in v ==> !Endline(c)
    ensures LineEnd(s, pos) == ValueAt(pos, k) + |v|
  {
    var at := ValueAt(pos, k);
    LineStart(s, pos, k, v);
    KeyAt(s, pos, k, v);
    forall i | pos <= i < at + |v|
      ensures !Endline(s[i])
    {
      if at <= i {
        assert s[i] == s[at..at + |v|][i - at];
      }
    }
    FindIn(s, pos, |s|, Endline, at + |v|);
  }

  lemma CleanListEnd(s: string, at: nat, v: string)
    requires CleanValue(v) && v[0] == '[' && at + |v| < |s| && s[at..at + |v|] == v
    ensures ListEnd(s, at + 1) == at + |v|
  {
    CloseInside(s, at, v, 1, 1);
  }

  lemma CleanEnd(s: string, pos: nat, k: string, v: string, start: nat, end: nat)
    requires CleanKey(k) && CleanValue(v) && LineAt(s, pos, k, v) && TextEnd(s, pos) >= pos + |k| + 2
    requires start == ValueStart(s, pos + |k| + 1, TextEnd(s, pos)) < LineEnd(s, pos)
    requires end == ValueEnd(s, pos + |k| + 1, LineEnd(s, pos), TextEnd(s, pos))
    ensures start == ValueAt(pos, k) && end == start + |v|
  {
    assert start == ValueAt(pos, k) && s[start] == v[0] by {
      assert v[0] in v;
      ValueFound(s, pos, k, v);
    }
    if v[0] == '[' {
      CleanListEnd(s, start, v);
    } else {
      LineEndIs(s, pos, k, v);
    }
  }

  lemma CleanRead(s: string, pos: nat, k: string, v: string, start: nat, end: nat)
    requires CleanKey(k) && CleanValue(v) && LineAt(s, pos, k, v) && TextEnd(s, pos) >= pos + |k| + 2
    requires start == ValueStart(s, pos + |k| + 1, TextEnd(s, pos)) < LineEnd(s, pos)
    requires end == ValueEnd(s, pos + |k| + 1, LineEnd(s, pos), TextEnd(s, pos))
    ensures Strip(s[start..end]) == v && end == ValueAt(pos, k) + |v|
  {
    CleanEnd(s, pos, k, v, start, end);
    StripNothing(v);
  }

  lemma ValueRead(s: string, pos: nat, k: string, v: string, start: nat, end: nat)
    requires CleanKey(k) && LineAt(s, pos, k, v) && TextEnd(s, pos) >= pos + |k| + 2
    requires start == ValueStart(s, pos + |k| + 1, TextEnd(s, pos)) < LineEnd(s, pos)
    requires end == ValueEnd(s, pos + |k| + 1, LineEnd(s, pos), TextEnd(s, pos))
    ensures Strip(s[start..end]) == v <==> CleanValue(v)
    ensures CleanValue(v) ==> end == ValueAt(pos, k) + |v|
  {
    if CleanValue(v) {
      CleanRead(s, pos, k, v, start, end);
    } else {
      DirtyValue(s, pos, k, v, start, end);
    }
  }

  lemma DirtyRest(s: string, pos: nat, k: string, v: string, start: nat, end: nat)
    requires CleanKey(k) && LineAt(s, pos, k, v) && v != "" && !CleanValue(v) && '#' !in v && !Whitespace(v[0])
    requires TextEnd(s, pos) >= pos + |k| + 2
    requires start == ValueStart(s, pos + |k| + 1, TextEnd(s, pos)) < LineEnd(s, pos)
    requires end == ValueEnd(s, pos + |k| + 1, LineEnd(s, pos), TextEnd(s, pos))
    ensures Strip(s[start..end]) != v
  {
    if v[0] == '[' {
      ListFound(s, pos, k, v, start, end);
      DirtyList(s, start, v);
    } else {
      LineFound(s, pos, k, v, start, end);
      DirtyLine(s, pos, k, v);
    }
  }

  /** The value of a line that holds none. */
  lemma LineFound(s: string, pos: nat, k: string, v: string, start: nat, end: nat)
    requires CleanKey(k) && LineAt(s, pos, k, v) && v != "" && v[0] != '[' && v[0] != '#' && !Whitespace(v[0])
    requires TextEnd(s, pos) >= pos + |k| + 2
    requires start == ValueStart(s, pos + |k| + 1, TextEnd(s, pos)) < LineEnd(s, pos)
    requires end == ValueEnd(s, pos + |k| + 1, LineEnd(s, pos), TextEnd(s, pos))
    ensures start == ValueAt(pos, k) && end == LineEnd(s, pos)
  {
    assert start == ValueAt(pos, k) && s[start] == v[0] by {
      ValueFound(s, pos, k, v);
    }
  }

  lemma DirtyValue(s: string, pos: nat, k: string, v: string, start: nat, end: nat)
    requires CleanKey(k) && LineAt(s, pos, k, v) && !CleanValue(v)
    requires TextEnd(s, pos) >= pos + |k| + 2
    requires start == ValueStart(s, pos + |k| + 1, TextEnd(s, pos)) < LineEnd(s, pos)
    requires end == ValueEnd(s, pos + |k| + 1, LineEnd(s, pos), TextEnd(s, pos))
    ensures Strip(s[start..end]) != v
  {
    if '#' in v {
    } else if v == "" {
      LineEndIs(s, pos, k, v);
      FirstKept(s, start, end);
    } else if Whitespace(v[0]) {
      DirtyBlank(s, pos, k, v, start, end);
    } else {
      DirtyRest(s, pos, k, v, start, end);
    }
  }

  lemma SlicePrefix(s: string, at: nat, v: string, end: nat)
    requires at + |v| < end <= |s| && s[at..at + |v|] == v && s[at + |v|] == '\n' && '#' !in v
    ensures |Strip(s[at..end])| > |v|
  {
    var rest := s[at + |v| + 1..end];
    assert s[at..end] == (v + "\n") + rest;
    StripPlain(v + "\n", rest);
  }

  /** A value on one line holds no line end. */
  lemma OneLine(s: string, pos: nat, start: nat)
    requires pos <= |s| && Begin(s, pos) <= start <= LineEnd(s, pos)
    ensures forall c :: c in Strip(s[start..LineEnd(s, pos)]) ==> !Endline(c)
  {
    StripKeeps(s[start..LineEnd(s, pos)]);
  }

  lemma DirtyList(s: string, at: nat, v: string)
    requires v != "" && v[0] == '[' && '#' !in v && Close(v, 1, 1) != Some(|v|)
    requires at + |v| < |s| && s[at..at + |v|] == v && s[at + |v|] == '\n'
    ensures Strip(s[at..ListEnd(s, at + 1)]) != v
  {
    CloseInside(s, at, v, 1, 1);
    if Close(v, 1, 1).None? {
      SlicePrefix(s, at, v, ListEnd(s, at + 1));
    }
  }

  lemma DirtyLine(s: string, pos: nat, k: string, v: string)
    requires CleanKey(k) && LineAt(s, pos, k, v) && '#' !in v && v != "" && !Whitespace(v[0]) && v[0] != '['
    requires !CleanValue(v)
    ensures ValueAt(pos, k) <= LineEnd(s, pos) && Strip(s[ValueAt(pos, k)..LineEnd(s, pos)]) != v
  {
    assert v[0] in v;
    ValueFound(s, pos, k, v);
    LineStart(s, pos, k, v);
    OneLine(s, pos, ValueAt(pos, k));
  }

  /** A value that starts with a blank gains one or loses one, or is cut at its line end. */
  lemma DirtyBlank(s: string, pos: nat, k: string, v: string, start: nat, end: nat)
    requires CleanKey(k) && LineAt(s, pos, k, v) && '#' !in v && v != "" && Whitespace(v[0])
    requires TextEnd(s, pos) >= pos + |k| + 2
    requires start == ValueStart(s, pos + |k| + 1, TextEnd(s, pos)) < LineEnd(s, pos)
    requires end == ValueEnd(s, pos + |k| + 1, LineEnd(s, pos), TextEnd(s, pos))
    ensures Strip(s[start..end]) != v
  {
    var at := ValueAt(pos, k);
    LineStart(s, pos, k, v);
    if start < TextEnd(s, pos) && SpaceTab(v[0]) {
      FirstKept(s, start, end);
    } else {
      BlankStart(s, pos, k, v, start);
      OneLine(s, pos, start);
      if forall c :: c in v ==> !Endline(c) {
        LineEndIs(s, pos, k, v);
        assert s[start..end] == " " + v;
        StripNothing(" " + v);
      }
    }
  }

  lemma FirstKept(s: string, start: nat, end: nat)
    requires start < end <= |s| && s[start] != '#'
    ensures Strip(s[start..end]) != "" && Strip(s[start..end])[0] == s[start]
  {
  }

  lemma BlankStart(s: string, pos: nat, k: string, v: string, start: nat)
    requires CleanKey(k) && LineAt(s, pos, k, v) && v != "" && Whitespace(v[0])
    requires TextEnd(s, pos) >= pos + |k| + 2
    requires start == ValueStart(s, pos + |k| + 1, TextEnd(s, pos)) < LineEnd(s, pos)
    requires start == TextEnd(s, pos) || Endline(v[0])
    ensures start == pos + |k| + 2
  {
    LineStart(s, pos, k, v);
    var at := ValueAt(pos, k);
    assert s[at] == s[at..at + |v|][0];
  }

  // ----- whole files -----

  /** Every option the parser finds has a clean key, and no comment in its value. */
  lemma OptionIsClean(s: string, pos: nat)
    requires pos <= |s|
    ensures var option := ParseOption(s, pos).1;
      option.Some? ==> CleanKey(option.value.0) && '#' !in option.value.1
  {
    var begin, endl, endc := Begin(s, pos), LineEnd(s, pos), TextEnd(s, pos);
    var eq := Find(s, begin, endc, c => c == '=');
    if eq != endc && eq != begin {
      KeyIsClean(s, pos, begin, eq, endl);
    }
  }

  lemma KeyIsClean(s: string, pos: nat, begin: nat, eq: nat, endl: nat)
    requires pos <= |s| && begin == Begin(s, pos) < eq < TextEnd(s, pos) && endl == LineEnd(s, pos)
    requires forall k :: begin <= k < eq ==> s[k] != '='
    ensures CleanKey(Strip(s[begin..FindLast(s, begin, eq, c => !SpaceTab(c))]))
  {
    var endName := FindLast(s, begin, eq, c => !SpaceTab(c));
    assert !Whitespace(s[begin]) && endName > begin;
    forall i | begin <= i < endName
      ensures s[i] != '#' && s[i] != '=' && !Endline(s[i])
    {
    }
    SliceIsCleanKey(s, begin, endName);
    StripNothing(s[begin..endName]);
  }

  lemma SliceIsCleanKey(s: string, begin: nat, end: nat)
    requires begin < end <= |s| && !Whitespace(s[begin]) && !SpaceTab(s[end - 1])
    requires forall i :: begin <= i < end ==> s[i] != '#' && s[i] != '=' && !Endline(s[i])
    ensures CleanKey(s[begin..end])
  {
    var k := s[begin..end];
    assert k[0] == s[begin] && k[|k| - 1] == s[end - 1];
    forall c | c in k
      ensures c != '#' && c != '=' && !Endline(c)
    {
      var i :| 0 <= i < |k| && k[i] == c;
      assert s[begin + i] == c;
    }
  }

  lemma {:induction false} FirstWins(s: string, pos: nat, vars: map<string, string>, k: string)
    requires k in vars
    ensures k in ParseFrom(s, pos, vars) && ParseFrom(s, pos, vars)[k] == vars[k]
    decreases |s| - pos
  {
    if pos < |s| {
      ParseStep(s, pos, vars);
      var parsed := ParseOption(s, pos);
      FirstWins(s, NextLine(s, parsed.0), Emplace(vars, parsed.1), k);
    }
  }

  lemma {:induction false} OnlyCleanKeys(s: string, pos: nat, vars: map<string, string>, k: string)
    requires k in ParseFrom(s, pos, vars)
    ensures k in vars || CleanKey(k)
    decreases |s| - pos
  {
    if pos < |s| {
      ParseStep(s, pos, vars);
      var parsed := ParseOption(s, pos);
      OptionIsClean(s, pos);
      OnlyCleanKeys(s, NextLine(s, parsed.0), Emplace(vars, parsed.1), k);
    }
  }

  /** A JSON object has no key twice. */
  ghost predicate Distinct(items: Items) {
    forall i, j :: 0 <= i < j < |items| ==> items[i].0 != items[j].0
  }

  predicate Clean(item: (string, Json)) {
    Skipped(item.1) || (CleanKey(item.0) && CleanValue(Shown(item.1)))
  }

  /** The entry is in the map. */
  ghost predicate Kept(vars: map<string, string>, item: (string, Json)) {
    Skipped(item.1) || (item.0 in vars && vars[item.0] == Shown(item.1))
  }

  ghost predicate IsKey(items: Items, k: string) {
    exists i :: 0 <= i < |items| && items[i].0 == k && !Skipped(items[i].1)
  }

  /** The map holds the printed entries and nothing else. */
  ghost predicate Describes(vars: map<string, string>, items: Items) {
    && (forall i :: 0 <= i < |items| ==> Kept(vars, items[i]))
    && (forall k :: k in vars ==> IsKey(items, k))
  }

  lemma LineStands(s: string, pos: nat, k: string, v: string, rest: string)
    requires pos <= |s| && s[pos..] == Line(k, v) + rest
    ensures LineAt(s, pos, k, v) && s[ValueAt(pos, k) + |v| + 1..] == rest
  {
    var t := s[pos..];
    forall j | 0 <= j < |k|
      ensures s[pos + j] == k[j]
    {
      assert t[j] == k[j];
    }
    var n := |k|;
    assert t[n] == ' ' && t[n + 1] == '=' && t[n + 2] == ' ' && t[n + 3 + |v|] == '\n';
    assert t[n + 3..n + 3 + |v|] == v;
    assert t[n + 4 + |v|..] == rest;
    SliceOfSlice(s, pos, |s|, n + 3, n + 3 + |v|);
    SliceOfSlice(s, pos, |s|, n + 4 + |v|, |t|);
  }

  /** What parse_config makes of the line of an entry with a clean key: the entry, exactly if its value is clean too. */
  lemma LineStep(s: string, pos: nat, k: string, v: string, vars: map<string, string>) returns (u: string, end: nat)
    requires CleanKey(k) && LineAt(s, pos, k, v) && k !in vars
    ensures u == v <==> CleanValue(v)
    ensures end <= |s| && (CleanValue(v) ==> end == ValueAt(pos, k) + |v|)
    ensures ParseFrom(s, pos, vars) == ParseFrom(s, NextLine(s, end), vars[k := u])
  {
    var start;
    start, end := LineRead(s, pos, k, v);
    ValueRead(s, pos, k, v, start, end);
    u := Strip(s[start..end]);
    ReadsStep(s, pos, k, start, end, vars);
  }

  lemma ReadsStep(s: string, pos: nat, k: string, start: nat, end: nat, vars: map<string, string>)
    requires Reads(s, pos, k, start, end) && pos < |s| && k !in vars
    ensures ParseFrom(s, pos, vars) == ParseFrom(s, NextLine(s, end), vars[k := Strip(s[start..end])])
  {
    ParseStep(s, pos, vars);
  }

  /** Parsing past the line of an entry with a clean key. */
  lemma EntryParsed(s: string, pos: nat, k: string, v: string, rest: string, vars: map<string, string>)
    returns (u: string, next: nat)
    requires CleanKey(k) && pos <= |s| && s[pos..] == Line(k, v) + rest && k !in vars
    ensures u == v <==> CleanValue(v)
    ensures ParseFrom(s, pos, vars) == ParseFrom(s, next, vars[k := u])
    ensures u == v ==> next <= |s| && s[next..] == rest
  {
    assert LineAt(s, pos, k, v) by {
      LineStands(s, pos, k, v, rest);
    }
    var end;
    u, end := LineStep(s, pos, k, v, vars);
    next := NextLine(s, end);
    if u == v {
      AfterLine(s, pos, k, v, rest, end);
    }
  }

  lemma AfterLine(s: string, pos: nat, k: string, v: string, rest: string, end: nat)
    requires pos <= |s| && s[pos..] == Line(k, v) + rest && end == ValueAt(pos, k) + |v| <= |s|
    ensures NextLine(s, end) <= |s| && s[NextLine(s, end)..] == rest
  {
    LineStands(s, pos, k, v, rest);
  }

  /** Clean entries are all read back, and nothing else is. */
  lemma {:induction false} CleanItemsRead(s: string, pos: nat, items: Items, vars: map<string, string>)
    requires pos <= |s| && s[pos..] == Print(items) && Distinct(items)
    requires forall i :: 0 <= i < |items| ==> Clean(items[i]) && items[i].0 !in vars
    ensures forall i :: 0 <= i < |items| ==> Kept(ParseFrom(s, pos, vars), items[i])
    ensures forall k :: k in ParseFrom(s, pos, vars) ==> k in vars || IsKey(items, k)
    decreases |items|
  {
    if items == [] {
      assert pos == |s|;
    } else {
      var k, v, rest, all := items[0].0, items[0].1, items[1..], ParseFrom(s, pos, vars);
      var next, vars' := pos, vars;
      if !Skipped(v) {
        var u: string;
        u, next := EntryParsed(s, pos, k, Shown(v), Print(rest), vars);
        vars' := vars[k := u];
        FirstWins(s, next, vars', k);
      }
      CleanItemsRead(s, next, rest, vars');
      HeadAndTail(items, all, vars, vars');
    }
  }

  /** If the first entry and the others are kept and nothing else is there, the whole object is kept. */
  lemma HeadAndTail(items: Items, all: map<string, string>, vars: map<string, string>, vars': map<string, string>)
    requires items != [] && Kept(all, items[0]) && forall i :: 0 <= i < |items[1..]| ==> Kept(all, items[1..][i])
    requires forall k :: k in vars' ==> k in vars || (k == items[0].0 && !Skipped(items[0].1))
    requires forall k :: k in all ==> k in vars' || IsKey(items[1..], k)
    ensures forall i :: 0 <= i < |items| ==> Kept(all, items[i])
    ensures forall k :: k in all ==> k in vars || IsKey(items, k)
  {
    forall i | 0 <= i < |items|
      ensures Kept(all, items[i])
    {
      assert i > 0 ==> items[i] == items[1..][i - 1];
    }
    forall k | k in all
      ensures k in vars || IsKey(items, k)
    {
      KeyOfMore(items, k);
    }
  }

  lemma KeyOfMore(items: Items, k: string)
    requires items != []
    ensures IsKey(items[1..], k) ==> IsKey(items, k)
    ensures items[0].0 == k && !Skipped(items[0].1) ==> IsKey(items, k)
  {
    if IsKey(items[1..], k) {
      var i :| 0 <= i < |items[1..]| && items[1..][i].0 == k && !Skipped(items[1..][i].1);
      assert items[i + 1].0 == k;
    }
  }

  lemma DirtyKeyLost(s: string, pos: nat, vars: map<string, string>, item: (string, Json))
    requires !Skipped(item.1) && !CleanKey(item.0) && item.0 !in vars
    ensures !Kept(ParseFrom(s, pos, vars), item)
  {
    if item.0 in ParseFrom(s, pos, vars) {
      OnlyCleanKeys(s, pos, vars, item.0);
    }
  }

  lemma DirtyValueLost(s: string, pos: nat, k: string, v: Json, rest: string, vars: map<string, string>)
    requires CleanKey(k) && !Skipped(v) && !CleanValue(Shown(v)) && k !in vars
    requires pos <= |s| && s[pos..] == Line(k, Shown(v)) + rest
    ensures !Kept(ParseFrom(s, pos, vars), (k, v))
  {
    var u, next := EntryParsed(s, pos, k, Shown(v), rest, vars);
    FirstWins(s, next, vars[k := u], k);
  }

  lemma TailOf(items: Items, d: nat)
    requires d < |items| && Distinct(items) && forall i :: 0 <= i < d ==> Clean(items[i])
    ensures Distinct(items[1..]) && forall i :: 0 <= i < |items[1..]| ==> items[1..][i].0 != items[0].0
    ensures d > 0 ==> items[1..][d - 1] == items[d] && forall i :: 0 <= i < d - 1 ==> Clean(items[1..][i])
  {
  }

  /** The first entry that is not clean is not read back. */
  lemma {:induction false} DirtyItemLost(s: string, pos: nat, items: Items, vars: map<string, string>, d: nat)
    requires pos <= |s| && s[pos..] == Print(items) && Distinct(items) && d < |items| && !Clean(items[d])
    requires forall i :: 0 <= i < d ==> Clean(items[i])
    requires forall i :: 0 <= i < |items| ==> items[i].0 !in vars
    ensures !Kept(ParseFrom(s, pos, vars), items[d])
    decreases |items|
  {
    var k, v, rest := items[0].0, items[0].1, items[1..];
    TailOf(items, d);
    if !CleanKey(items[d].0) {
      DirtyKeyLost(s, pos, vars, items[d]);
    } else if Skipped(v) {
      DirtyItemLost(s, pos, rest, vars, d - 1);
    } else if d == 0 {
      DirtyValueLost(s, pos, k, v, Print(rest), vars);
    } else {
      var u, next := EntryParsed(s, pos, k, Shown(v), Print(rest), vars);
      DirtyItemLost(s, next, rest, vars[k := u], d - 1);
    }
  }

  lemma FirstDirty(items: Items) returns (d: nat)
    requires exists i :: 0 <= i < |items| && !Clean(items[i])
    ensures d < |items| && !Clean(items[d]) && forall i :: 0 <= i < d ==> Clean(items[i])
  {
    d := 0;
    while Clean(items[d])
      invariant d < |items| && forall i :: 0 <= i < d ==> Clean(items[i])
      decreases |items| - d
    {
      d := d + 1;
    }
  }

  /**
   * A saved configuration is read back as it was, whatever is in it, exactly if each entry that was written is clean.
   */
  lemma RoundTrip(items: Items)
    requires Distinct(items)
    ensures Describes(ParseFrom(Print(items), 0, map[]), items) <==> forall i :: 0 <= i < |items| ==> Clean(items[i])
  {
    var s := Print(items);
    assert s[0..] == s;
    if forall i :: 0 <= i < |items| ==> Clean(items[i]) {
      CleanItemsRead(s, 0, items, map[]);
    } else {
      var d := FirstDirty(items);
      DirtyItemLost(s, 0, items, map[], d);
    }
  }

  /** A host whose name holds a '#' is not read back with that name. */
  lemma CommentInName()
    ensures !Describes(ParseFrom(Print([("sunshine_name", Text("den #2"))]), 0, map[]),
      [("sunshine_name", Text("den #2"))])
  {
    var items := [("sunshine_name", Text("den #2"))];
    assert Shown(items[0].1)[4] == '#';
    assert !Clean(items[0]);
    RoundTrip(items);
  }

  // ----- lists without their closing bracket -----

  /** The line at `pos` holds an option whose value begins at `start`, with the bracket that opens a list. */
  ghost predicate OpensList(s: string, pos: nat, start: nat) {
    pos < |s| &&
    var begin, endc := Begin(s, pos), TextEnd(s, pos);
    var eq := Find(s, begin, endc, c => c == '=');
    && begin < eq < endc && start == ValueStart(s, eq, endc)
    && start < LineEnd(s, pos) && s[start] == '['
  }

  /** No bracket closes the list that begins at `start`, anywhere in the rest of the file. */
  predicate Unclosed(s: string, start: nat)
    requires start < |s|
  {
    Close(s, start + 1, 1).None?
  }

  /**
   * What parse_option makes of any list, closed or not: it gives up on it exactly if nothing follows the opening
   * bracket.
   */
  lemma ListParsed(s: string, pos: nat, start: nat)
    requires OpensList(s, pos, start)
    ensures ParseOption(s, pos).0 == ListEnd(s, start + 1)
    ensures ParseOption(s, pos).1.None? <==> start + 1 == |s|
    ensures ParseOption(s, pos).1.Some? ==> ParseOption(s, pos).1.value.1 == Strip(s[start..ListEnd(s, start + 1)])
  {
  }

  /**
   * A list without its closing bracket ends the file, whoever wrote it: it is reported if and only if its opening
   * bracket is the last character, and otherwise everything from that bracket on is its value.
   */
  lemma MissingBracket(s: string, pos: nat, start: nat, vars: map<string, string>)
    requires OpensList(s, pos, start) && Unclosed(s, start)
    ensures var (end, option) := ParseOption(s, pos);
      && end == |s| && (option.None? <==> start + 1 == |s|)
      && (option.Some? ==> option.value.1 == Strip(s[start..]))
      && ParseFrom(s, pos, vars) == Emplace(vars, option)
  {
    ListParsed(s, pos, start);
    assert s[start..|s|] == s[start..];
    ParseStep(s, pos, vars);
    ParsedToEnd(s, |s|, Emplace(vars, ParseOption(s, pos).1));
  }

  /**
   * So the report is given exactly for missing brackets only where no unclosed list has anything behind its bracket.
   */
  lemma ReportedExactly(s: string, pos: nat, start: nat)
    requires OpensList(s, pos, start)
    ensures (ParseOption(s, pos).1.None? <==> Unclosed(s, start)) <==> (Unclosed(s, start) ==> start + 1 == |s|)
  {
    ListParsed(s, pos, start);
  }

  /** A file that begins with `x=[`. */
  lemma OpensAtTwo(s: string)
    requires |s| >= 3 && s[0] == 'x' && s[1] == '=' && s[2] == '['
    ensures OpensList(s, 0, 2)
    ensures ParseOption(s, 0).1.Some? ==> ParseOption(s, 0).1.value.0 == "x"
  {
    FindIn(s, 0, |s|, c => !Whitespace(c), 0);
    var hash := Find(s, 0, LineEnd(s, 0), c => c == '#');
    assert hash >= 3;
    EqualsIsAt(s, 0, TextEnd(s, 0), 1);
    FindIn(s, 2, TextEnd(s, 0), c => !SpaceTab(c), 2);
    FindLastIn(s, 0, 1, c => !SpaceTab(c), 1);
    StripNothing(s[0..1]);
  }

  lemma {:induction false} NeverCloses(s: string, pos: nat, stack: nat)
    requires pos <= |s| && stack > 0 && ']' !in s[pos..]
    ensures Close(s, pos, stack).None?
    decreases |s| - pos
  {
    if pos < |s| {
      assert s[pos] in s[pos..] && s[pos + 1..] == s[pos..][1..];
      NeverCloses(s, pos + 1, if s[pos] == '[' then stack + 1 else stack);
    }
  }

  /**
   * Both sides in one file: alone, the bracket is reported and nothing is read; with anything behind it, that is the
   * value.
   */
  lemma OneUnclosedFile(rest: string)
    requires ']' !in rest && '#' !in rest
    ensures ParseFrom("x=[" + rest, 0, map[]) == if rest == "" then map[] else map["x" := "[" + rest]
  {
    var s := "x=[" + rest;
    OpensAtTwo(s);
    assert s[3..] == rest && s[2..] == "[" + rest;
    NeverCloses(s, 3, 1);
    MissingBracket(s, 0, 2, map[]);
    StripNothing(s[2..]);
  }

  /** The entry behind an open list is lost, without a report. */
  lemma NextEntryLost()
    ensures "y" !in ParseFrom("x=[" + "a\ny=1", 0, map[]) && ParseFrom("x=[", 0, map[]) == map[]
  {
    OneUnclosedFile("a\ny=1");
    OneUnclosedFile("");
    assert "x=[" + "" == "x=[";
  }

  /**
   * A list that is not closed takes the whole rest of the file as its value: later entries are lost, and no warning is
   * given.
   */
  lemma UnclosedList(s: string, pos: nat, k: string, v: string, rest: string, vars: map<string, string>)
    requires CleanKey(k) && pos <= |s| && s[pos..] == Line(k, v) + rest && k !in vars && v != "" && v[0] == '['
    requires ValueAt(pos, k) < |s| && Close(s, ValueAt(pos, k) + 1, 1).None?
    ensures ParseFrom(s, pos, vars) == vars[k := Strip(s[ValueAt(pos, k)..])]
  {
    var at := ValueAt(pos, k);
    UnclosedAt(s, pos, k, v, rest);
    assert s[at..|s|] == s[at..];
    ReadsStep(s, pos, k, at, |s|, vars);
    ParsedToEnd(s, |s|, vars[k := Strip(s[at..])]);
  }

  lemma UnclosedAt(s: string, pos: nat, k: string, v: string, rest: string)
    requires CleanKey(k) && pos <= |s| && s[pos..] == Line(k, v) + rest && v != "" && v[0] == '['
    requires ValueAt(pos, k) < |s| && Close(s, ValueAt(pos, k) + 1, 1).None?
    ensures Reads(s, pos, k, ValueAt(pos, k), |s|)
  {
    LineStands(s, pos, k, v, rest);
    UnclosedRead(s, pos, k, v);
  }

  lemma UnclosedRead(s: string, pos: nat, k: string, v: string)
    requires CleanKey(k) && LineAt(s, pos, k, v) && v != "" && v[0] == '[' && Close(s, ValueAt(pos, k) + 1, 1).None?
    ensures Reads(s, pos, k, ValueAt(pos, k), |s|)
  {
    var start, end := LineRead(s, pos, k, v);
    ListFound(s, pos, k, v, start, end);
  }

  /** The value of a line that holds a list. */
  lemma ListFound(s: string, pos: nat, k: string, v: string, start: nat, end: nat)
    requires CleanKey(k) && LineAt(s, pos, k, v) && v != "" && v[0] == '[' && TextEnd(s, pos) >= pos + |k| + 2
    requires start == ValueStart(s, pos + |k| + 1, TextEnd(s, pos)) < LineEnd(s, pos)
    requires end == ValueEnd(s, pos + |k| + 1, LineEnd(s, pos), TextEnd(s, pos))
    ensures start == ValueAt(pos, k) && end == ListEnd(s, start + 1)
  {
    assert start == ValueAt(pos, k) && s[start] == '[' by {
      ValueFound(s, pos, k, v);
    }
  }

  lemma ParsedToEnd(s: string, pos: nat, vars: map<string, string>)
    requires pos >= |s|
    ensures ParseFrom(s, pos, vars) == vars
  {
  }
}
