/**
 * The configuration file: the parser of src/config.cpp and its inverse, the printing loop of saveConfig in
 * src/confighttp.cpp. Positions are offsets into the whole file, as the iterators are.
 */
module Config {
  import opened Basics

  predicate Endline(c: char) {
    c == '\r' || c == '\n'
  }

  predicate SpaceTab(c: char) {
    c == ' ' || c == '\t'
  }

  predicate Whitespace(c: char) {
    SpaceTab(c) || Endline(c)
  }

  // ----- the standard searches -----

  /** std::find_if: the first position from `from` on whose character satisfies `p`, else `end`. */
  function Find(s: string, from: nat, end: nat, p: char -> bool): (i: nat)
    requires from <= end <= |s|
    ensures from <= i <= end && (i < end ==> p(s[i])) && forall k :: from <= k < i ==> !p(s[k])
    decreases end - from
  {
    if from == end || p(s[from]) then from else Find(s, from + 1, end, p)
  }

  /**
   * std::find_if over reverse iterators, and base(): just behind the last character that satisfies `p`, else `from`.
   */
  function FindLast(s: string, from: nat, end: nat, p: char -> bool): (i: nat)
    requires from <= end <= |s|
    ensures from <= i <= end && (from < i ==> p(s[i - 1])) && forall k :: i <= k < end ==> !p(s[k])
  {
    if from == end || p(s[end - 1]) then end else FindLast(s, from, end - 1, p)
  }

  /** There is only one such position. */
  lemma FindIn(s: string, from: nat, end: nat, p: char -> bool, i: nat)
    requires from <= i <= end <= |s| && (i < end ==> p(s[i])) && forall k :: from <= k < i ==> !p(s[k])
    ensures Find(s, from, end, p) == i
  {
  }

  lemma FindLastIn(s: string, from: nat, end: nat, p: char -> bool, i: nat)
    requires from <= i <= end <= |s| && (from < i ==> p(s[i - 1])) && forall k :: i <= k < end ==> !p(s[k])
    ensures FindLast(s, from, end, p) == i
  {
  }

  // ----- to_string -----

  /** The text without its comments; the line ends that close them stay. */
  function Strip(s: string): (r: string)
    ensures |r| <= |s| && '#' !in r
    decreases |s|
  {
    if s == "" then ""
    else if s[0] == '#' then Strip(s[Find(s, 1, |s|, Endline)..])
    else [s[0]] + Strip(s[1..])
  }

  lemma {:induction false} StripPlain(a: string, b: string)
    requires '#' !in a
    ensures Strip(a + b) == a + Strip(b)
  {
    if a == "" {
      assert a + b == b;
    } else {
      assert (a + b)[1..] == a[1..] + b;
      StripPlain(a[1..], b);
    }
  }

  lemma StripNothing(a: string)
    requires '#' !in a
    ensures Strip(a) == a
  {
    StripPlain(a, "");
    assert a + "" == a;
  }

  lemma {:induction false} StripKeeps(s: string)
    ensures forall c :: c in Strip(s) ==> c in s
  {
    if s != "" {
      if s[0] == '#' {
        StripKeeps(s[Find(s, 1, |s|, Endline)..]);
      } else {
        StripKeeps(s[1..]);
      }
    }
  }

  /** One turn of the loop of to_string. */
  lemma StripStep(s: string, pos: nat, end: nat, comment: nat, endl: nat)
    requires pos <= comment <= end <= |s| && (forall k :: pos <= k < comment ==> s[k] != '#')
    requires comment < end ==> s[comment] == '#'
    requires comment <= endl <= end && (endl < end ==> Endline(s[endl]))
    requires forall k :: comment <= k < endl ==> !Endline(s[k])
    ensures Strip(s[pos..end]) == s[pos..comment] + Strip(s[endl..end])
  {
    assert s[pos..end] == s[pos..comment] + s[comment..end];
    StripPlain(s[pos..comment], s[comment..end]);
    if comment < end {
      StripComment(s[comment..end], endl - comment);
      assert s[comment..end][endl - comment..] == s[endl..end];
    }
  }

  /** A comment goes as far as the first line end. */
  lemma StripComment(t: string, endl: nat)
    requires t != "" && t[0] == '#' && endl <= |t| && (endl < |t| ==> Endline(t[endl]))
    requires forall k :: 0 <= k < endl ==> !Endline(t[k])
    ensures Strip(t) == Strip(t[endl..])
  {
    FindIn(t, 1, |t|, Endline, endl);
  }

  lemma Associative<T>(a: seq<T>, b: seq<T>, c: seq<T>)
    ensures a + (b + c) == (a + b) + c
  {
  }

  method ToString(s: string, begin: nat, end: nat) returns (result: string)
    requires begin <= end <= |s|
    ensures result == Strip(s[begin..end])
  {
    result := "";
    var pos := begin;
    ghost var all := Strip(s[begin..end]);
    while pos != end
      invariant begin <= pos <= end && result + Strip(s[pos..end]) == all
      decreases end - pos
    {
      var comment := Find(s, pos, end, c => c == '#');
      var endl := Find(s, comment, end, Endline);
      StripStep(s, pos, end, comment, endl);
      Associative(result, s[pos..comment], Strip(s[endl..end]));
      result := result + s[pos..comment];
      pos := endl;
    }
  }

  // ----- skip_list -----

  /** Just behind the bracket that closes `stack` open ones, if there is one. */
  function Close(s: string, pos: nat, stack: nat): (r: Option<nat>)
    requires pos <= |s|
    ensures r.Some? ==> pos <= r.value <= |s|
    decreases |s| - pos
  {
    if stack == 0 then Some(pos)
    else if pos == |s| then None
    else Close(s, pos + 1, if s[pos] == '[' then stack + 1 else if s[pos] == ']' then stack - 1 else stack)
  }

  function ListEnd(s: string, pos: nat): (end: nat)
    requires pos <= |s|
    ensures pos <= end <= |s|
  {
    match Close(s, pos, 1)
    case Some(end) => end
    case None => |s|
  }

  method SkipList(s: string, skipper: nat) returns (end: nat)
    requires skipper <= |s|
    ensures end == ListEnd(s, skipper)
  {
    var stack := 1;
    end := skipper;
    while end != |s| && stack != 0
      invariant end <= |s| && stack >= 0 && Close(s, end, stack) == Close(s, skipper, 1)
      decreases |s| - end
    {
      if s[end] == '[' {
        stack := stack + 1;
      }
      if s[end] == ']' {
        stack := stack - 1;
      }
      end := end + 1;
    }
  }

  /** A list inside a longer text closes where it closes alone, and if it does not, the text behind it is read too. */
  lemma {:induction false} CloseInside(s: string, at: nat, v: string, i: nat, stack: nat)
    requires i <= |v| && at + |v| < |s| && s[at..at + |v|] == v && stack > 0
    ensures Close(v, i, stack).Some? ==> Close(s, at + i, stack) == Some(at + Close(v, i, stack).value)
    ensures Close(v, i, stack).None? ==>
      match Close(s, at + i, stack) case Some(end) => end > at + |v| case None => true
    decreases |v| - i
  {
    if i < |v| {
      assert s[at + i] == s[at..at + |v|][i];
      var stack' := if v[i] == '[' then stack + 1 else if v[i] == ']' then stack - 1 else stack;
      if stack' > 0 {
        CloseInside(s, at, v, i + 1, stack');
      }
    }
  }

  // ----- parse_option -----

  type Entry = (string, string)

  function Begin(s: string, pos: nat): (i: nat)
    requires pos <= |s|
    ensures pos <= i <= |s|
  {
    Find(s, pos, |s|, c => !Whitespace(c))
  }

  function LineEnd(s: string, pos: nat): (i: nat)
    requires pos <= |s|
    ensures Begin(s, pos) <= i <= |s|
  {
    Find(s, Begin(s, pos), |s|, Endline)
  }

  /** endc: the end of the line's text, in front of any comment and blanks. */
  function TextEnd(s: string, pos: nat): (i: nat)
    requires pos <= |s|
    ensures Begin(s, pos) <= i <= LineEnd(s, pos)
  {
    FindLast(s, Begin(s, pos), Find(s, Begin(s, pos), LineEnd(s, pos), c => c == '#'), c => !Whitespace(c))
  }

  /** Where the next option ends, and the option if the line holds one. */
  function ParseOption(s: string, pos: nat): (r: (nat, Option<Entry>))
    requires pos <= |s|
    ensures pos <= r.0 <= |s|
  {
    var begin, endl, endc := Begin(s, pos), LineEnd(s, pos), TextEnd(s, pos);
    var eq := Find(s, begin, endc, c => c == '=');
    if eq == endc || eq == begin then (endl, None) else (ValueEnd(s, eq, endl, endc), Value(s, begin, eq, endl, endc))
  }

  /** The first character of the value, or `endc` if only blanks follow the '='. */
  function ValueStart(s: string, eq: nat, endc: nat): (i: nat)
    requires eq < endc <= |s|
    ensures eq < i <= endc
  {
    Find(s, eq + 1, endc, c => !SpaceTab(c))
  }

  function ValueEnd(s: string, eq: nat, endl: nat, endc: nat): (i: nat)
    requires eq < endc <= endl <= |s|
    ensures ValueStart(s, eq, endc) <= i <= |s|
  {
    var start := ValueStart(s, eq, endc);
    // the end of a list is found by its brackets, whatever the lines
    if start < endl && s[start] == '[' then ListEnd(s, start + 1) else endl
  }

  /** A list is missed only if nothing at all follows its opening bracket. */
  function Value(s: string, begin: nat, eq: nat, endl: nat, endc: nat): Option<Entry>
    requires begin < eq < endc <= endl <= |s|
  {
    var endName, start := FindLast(s, begin, eq, c => !SpaceTab(c)), ValueStart(s, eq, endc);
    if start == endl || (s[start] == '[' && start + 1 == |s|) then None
    else Some((Strip(s[begin..endName]), Strip(s[start..ValueEnd(s, eq, endl, endc)])))
  }

  // ----- parse_config -----

  function Emplace(vars: map<string, string>, option: Option<Entry>): map<string, string> {
    if option.Some? && option.value.0 !in vars then vars[option.value.0 := option.value.1] else vars
  }

  /** Past the line end: a carriage return takes the character behind it along. */
  function NextLine(s: string, endl: nat): nat
    requires endl <= |s|
  {
    if endl == |s| then endl else endl + if s[endl] == '\r' then 2 else 1
  }

  function ParseFrom(s: string, pos: nat, vars: map<string, string>): map<string, string>
    decreases |s| - pos
  {
    if pos >= |s| then vars
    else
      var parsed := ParseOption(s, pos);
      ParseFrom(s, NextLine(s, parsed.0), Emplace(vars, parsed.1))
  }

  lemma ParseStep(s: string, pos: nat, vars: map<string, string>)
    requires pos < |s|
    ensures NextLine(s, ParseOption(s, pos).0) > pos
    ensures ParseFrom(s, pos, vars) == ParseFrom(s, NextLine(s, ParseOption(s, pos).0),
      Emplace(vars, ParseOption(s, pos).1))
  {
  }

  /** The body of the loop of parse_config, behind parse_option. */
  method Advance(content: string, endl: nat, option: Option<Entry>, vars: map<string, string>)
    returns (pos: nat, vars': map<string, string>)
    requires endl <= |content|
    ensures pos == NextLine(content, endl) && vars' == Emplace(vars, option)
  {
    pos := endl;
    if pos != |content| {
      pos := pos + if content[pos] == '\r' then 2 else 1;
    }
    vars' := vars;
    if option.Some? && option.value.0 !in vars {
      vars' := vars[option.value.0 := option.value.1];
    }
  }

  /**
   * One turn of the loop of parse_config: it gets further, keeps what was read, and does not change what the file
   * means.
   */
  method ParseNext(content: string, pos: nat, vars: map<string, string>) returns (pos': nat, vars': map<string, string>)
    requires pos < |content|
    ensures pos' > pos && ParseFrom(content, pos', vars') == ParseFrom(content, pos, vars)
    ensures forall k :: k in vars ==> k in vars' && vars'[k] == vars[k]
  {
    var parsed := ParseOption(content, pos);
    ParseStep(content, pos, vars);
    pos', vars' := Advance(content, parsed.0, parsed.1, vars);
  }

  method ParseConfig(content: string) returns (vars: map<string, string>)
    ensures vars == ParseFrom(content, 0, map[])
  {
    vars := map[];
    var pos := 0;
    ghost var all := ParseFrom(content, 0, map[]);
    while pos < |content|
      invariant ParseFrom(content, pos, vars) == all
      decreases |content| - pos
    {
      pos, vars := ParseNext(content, pos, vars);
    }
  }
}
