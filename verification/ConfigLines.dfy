/**
 * Line ends of the configuration file, src/config.cpp: a file with CR LF is read like the same file with LF, except
 * that a list that goes over several lines keeps the line ends it has.
 */
module ConfigLines {
  import opened Basics
  import opened Config
  import opened ConfigFile

  /** The text with every line feed preceded by a carriage return. */
  function Crlf(s: string): string {
    if s == "" then "" else Moved(s[0]) + Crlf(s[1..])
  }

  function Moved(c: char): string {
    if c == '\n' then "\r\n" else [c]
  }

  lemma {:induction false} CrlfConcat(a: string, b: string)
    ensures Crlf(a + b) == Crlf(a) + Crlf(b)
  {
    if a == "" {
      assert a + b == b;
    } else {
      assert (a + b)[1..] == a[1..] + b;
      CrlfConcat(a[1..], b);
    }
  }

  // ----- positions -----

  /** Position `i` of `s` has become position m[i] of `t`, the same text with the other line ends. */
  ghost predicate Maps(s: string, t: string, m: seq<nat>) {
    && |m| == |s| + 1 && m[0] == 0 && m[|s|] == |t|
    && (forall i, j :: 0 <= i < j < |m| ==> m[i] < m[j])
    && forall i :: 0 <= i < |s| ==> Lands(s, t, m, i)
  }

  ghost predicate Lands(s: string, t: string, m: seq<nat>, i: nat)
    requires i < |s| && i + 1 < |m|
  {
    if s[i] == '\n' then m[i + 1] == m[i] + 2 <= |t| && t[m[i]] == '\r' && t[m[i] + 1] == '\n'
    else m[i + 1] == m[i] + 1 <= |t| && t[m[i]] == s[i]
  }

  lemma {:induction false} MapOf(s: string) returns (m: seq<nat>)
    ensures Maps(s, Crlf(s), m)
    decreases |s|
  {
    if s == "" {
      m := [0];
    } else {
      var front, c := s[..|s| - 1], s[|s| - 1];
      var less := MapOf(front);
      m := less + [less[|front|] + |Moved(c)|];
      CrlfConcat(front, [c]);
      assert front + [c] == s && [c][1..] == "" && Crlf([c]) == Moved(c) + "";
      MapMore(front, Crlf(front), less, c, s, Crlf(s), m);
    }
  }

  lemma MapMore(front: string, ft: string, less: seq<nat>, c: char, s: string, t: string, m: seq<nat>)
    requires Maps(front, ft, less) && s == front + [c] && t == ft + Moved(c) && m == less + [|ft| + |Moved(c)|]
    ensures Maps(s, t, m)
  {
    forall i | 0 <= i < |s|
      ensures Lands(s, t, m, i)
    {
      if i < |front| {
        assert Lands(front, ft, less, i);
      }
    }
  }

  /** A piece of the text has become the piece between the new positions. */
  lemma {:induction false} PieceMoves(s: string, t: string, m: seq<nat>, a: nat, b: nat)
    requires Maps(s, t, m) && a <= b <= |s|
    ensures m[a] <= m[b] <= |t| && t[m[a]..m[b]] == Crlf(s[a..b])
    decreases b
  {
    if a < b {
      PieceMoves(s, t, m, a, b - 1);
      OneMoves(s, t, m, b - 1);
      SlicesJoin(s, a, b - 1, b);
      SlicesJoin(t, m[a], m[b - 1], m[b]);
      CrlfJoin(s[a..b - 1], [s[b - 1]], t[m[a]..m[b - 1]], t[m[b - 1]..m[b]]);
    }
  }

  lemma CrlfJoin(a: string, b: string, u: string, v: string)
    requires u == Crlf(a) && v == Crlf(b)
    ensures u + v == Crlf(a + b)
  {
    CrlfConcat(a, b);
  }

  lemma SlicesJoin(s: string, a: nat, b: nat, c: nat)
    requires a <= b <= c <= |s|
    ensures s[a..b] + s[b..c] == s[a..c] && (c == b + 1 ==> s[b..c] == [s[b]])
  {
  }

  lemma OneMoves(s: string, t: string, m: seq<nat>, i: nat)
    requires Maps(s, t, m) && i < |s|
    ensures m[i] < m[i + 1] <= |t| && t[m[i]..m[i + 1]] == Moved(s[i]) == Crlf([s[i]])
  {
    assert Lands(s, t, m, i) && m[i + 1] <= m[|s|];
    assert [s[i]][1..] == "" && Moved(s[i]) + "" == Moved(s[i]);
  }

  // ----- the searches -----

  /** The search sees no difference between the two line ends. */
  ghost predicate Blind(p: char -> bool) {
    p('\n') == p('\r')
  }

  lemma {:induction false} FindMoves(s: string, t: string, m: seq<nat>, from: nat, end: nat, p: char -> bool)
    requires Maps(s, t, m) && from <= end <= |s| && Blind(p)
    ensures m[from] <= m[end] <= |t| && Find(t, m[from], m[end], p) == m[Find(s, from, end, p)]
    decreases end - from
  {
    assert m[end] <= m[|s|];
    if from < end {
      assert Lands(s, t, m, from) && m[from + 1] <= m[end];
      FindMoves(s, t, m, from + 1, end, p);
      if !p(s[from]) && s[from] == '\n' {
        assert Find(t, m[from], m[end], p) == Find(t, m[from] + 1, m[end], p);
      }
    }
  }

  lemma {:induction false} FindLastMoves(s: string, t: string, m: seq<nat>, from: nat, end: nat, p: char -> bool)
    requires Maps(s, t, m) && from <= end <= |s| && Blind(p)
    ensures m[from] <= m[end] <= |t| && FindLast(t, m[from], m[end], p) == m[FindLast(s, from, end, p)]
    decreases end
  {
    assert m[end] <= m[|s|];
    if from < end {
      assert Lands(s, t, m, end - 1) && m[from] <= m[end - 1];
      FindLastMoves(s, t, m, from, end - 1, p);
      if !p(s[end - 1]) && s[end - 1] == '\n' {
        assert FindLast(t, m[from], m[end], p) == FindLast(t, m[from], m[end] - 1, p);
      }
    }
  }

  function PosOf(m: seq<nat>, i: Option<nat>): Option<nat>
    requires i.Some? ==> i.value < |m|
  {
    match i case None => None case Some(i) => Some(m[i])
  }

  lemma {:induction false} CloseMoves(s: string, t: string, m: seq<nat>, i: nat, stack: nat)
    requires Maps(s, t, m) && i <= |s|
    ensures m[i] <= |t| && Close(t, m[i], stack) == PosOf(m, Close(s, i, stack))
    decreases |s| - i
  {
    assert m[i] <= m[|s|];
    if stack > 0 && i < |s| {
      assert Lands(s, t, m, i) && m[i] < m[|s|];
      CloseMoves(s, t, m, i + 1, Nested(s[i], stack));
      if s[i] == '\n' {
        assert Close(t, m[i], stack) == Close(t, m[i] + 1, stack);
      }
    }
  }

  function Nested(c: char, stack: nat): nat
    requires stack > 0
  {
    if c == '[' then stack + 1 else if c == ']' then stack - 1 else stack
  }

  lemma ListEndMoves(s: string, t: string, m: seq<nat>, i: nat)
    requires Maps(s, t, m) && i <= |s|
    ensures m[i] <= |t| && ListEnd(t, m[i]) == m[ListEnd(s, i)]
  {
    CloseMoves(s, t, m, i, 1);
  }

  // ----- values -----

  lemma {:induction false} StripMoves(t: string)
    ensures Strip(Crlf(t)) == Crlf(Strip(t))
    decreases |t|
  {
    if t != "" {
      if t[0] == '#' {
        CommentMoves(t);
        StripMoves(t[Find(t, 1, |t|, Endline)..]);
      } else {
        StripMoves(t[1..]);
        StripPlain(Moved(t[0]), Crlf(t[1..]));
        assert ([t[0]] + Strip(t[1..]))[1..] == Strip(t[1..]);
      }
    }
  }

  lemma CommentMoves(t: string)
    requires t != "" && t[0] == '#'
    ensures Strip(Crlf(t)) == Strip(Crlf(t[Find(t, 1, |t|, Endline)..]))
  {
    var m := MapOf(t);
    CommentEnd(t, Crlf(t), m);
    TailIs(t, Find(t, 1, |t|, Endline));
  }

  lemma TailIs(t: string, i: nat)
    requires i <= |t|
    ensures t[i..|t|] == t[i..]
  {
  }

  lemma CommentEnd(t: string, u: string, m: seq<nat>)
    requires Maps(t, u, m) && t != "" && t[0] == '#'
    ensures Strip(u) == Strip(Crlf(t[Find(t, 1, |t|, Endline)..|t|]))
  {
    var i := Find(t, 1, |t|, Endline);
    assert Lands(t, u, m, 0);
    FindMoves(t, u, m, 1, |t|, Endline);
    PieceMoves(t, u, m, i, |t|);
    assert u[m[i]..|u|] == u[m[i]..];
    CommentGone(u, m[i]);
  }

  lemma CommentGone(u: string, i: nat)
    requires u != "" && u[0] == '#' && i == Find(u, 1, |u|, Endline)
    ensures Strip(u) == Strip(u[i..])
  {
  }

  lemma {:induction false} NothingMoves(t: string)
    requires '\n' !in t
    ensures Crlf(t) == t
  {
    if t != "" {
      NothingMoves(t[1..]);
      assert [t[0]] + t[1..] == t;
    }
  }

  lemma StripPiece(s: string, t: string, m: seq<nat>, a: nat, b: nat)
    requires Maps(s, t, m) && a <= b <= |s|
    ensures m[a] <= m[b] <= |t| && Strip(t[m[a]..m[b]]) == Crlf(Strip(s[a..b]))
  {
    PieceMoves(s, t, m, a, b);
    StripMoves(s[a..b]);
  }

  // ----- one option -----

  function EntryMoved(e: Option<Entry>): Option<Entry> {
    match e case None => None case Some((k, v)) => Some((k, Crlf(v)))
  }

  lemma LineMoves(s: string, t: string, m: seq<nat>, pos: nat)
    requires Maps(s, t, m) && pos <= |s|
    ensures m[pos] <= |t| && Begin(t, m[pos]) == m[Begin(s, pos)]
    ensures LineEnd(t, m[pos]) == m[LineEnd(s, pos)] && TextEnd(t, m[pos]) == m[TextEnd(s, pos)]
  {
    FindMoves(s, t, m, pos, |s|, c => !Whitespace(c));
    FindMoves(s, t, m, Begin(s, pos), |s|, Endline);
    FindMoves(s, t, m, Begin(s, pos), LineEnd(s, pos), c => c == '#');
    FindLastMoves(s, t, m, Begin(s, pos), Find(s, Begin(s, pos), LineEnd(s, pos), c => c == '#'), c => !Whitespace(c));
  }

  lemma ValueMoves(s: string, t: string, m: seq<nat>, eq: nat, endl: nat, endc: nat)
    requires Maps(s, t, m) && eq < endc <= endl <= |s| && s[eq] == '='
    ensures m[eq] < m[endc] <= m[endl] <= |t|
    ensures ValueStart(t, m[eq], m[endc]) == m[ValueStart(s, eq, endc)]
    ensures ValueEnd(t, m[eq], m[endl], m[endc]) == m[ValueEnd(s, eq, endl, endc)]
  {
    assert Lands(s, t, m, eq) && m[endl] <= m[|s|];
    FindMoves(s, t, m, eq + 1, endc, c => !SpaceTab(c));
    var start := ValueStart(s, eq, endc);
    if start < endl {
      assert Lands(s, t, m, start);
      ListEndMoves(s, t, m, start + 1);
    }
  }

  lemma EntryMoves(s: string, t: string, m: seq<nat>, begin: nat, eq: nat, endl: nat, endc: nat)
    requires Maps(s, t, m) && begin < eq < endc <= endl <= |s| && s[eq] == '='
    requires var e := Value(s, begin, eq, endl, endc); e.Some? ==> '\n' !in e.value.0
    ensures m[begin] < m[eq] < m[endc] <= m[endl] <= |t|
    ensures Value(t, m[begin], m[eq], m[endl], m[endc]) == EntryMoved(Value(s, begin, eq, endl, endc))
  {
    ValueMoves(s, t, m, eq, endl, endc);
    FindLastMoves(s, t, m, begin, eq, c => !SpaceTab(c));
    MissedMoves(s, t, m, ValueStart(s, eq, endc), endl);
    if Value(s, begin, eq, endl, endc).Some? {
      TextsMove(s, t, m, begin, FindLast(s, begin, eq, c => !SpaceTab(c)), ValueStart(s, eq, endc),
                ValueEnd(s, eq, endl, endc));
    }
  }

  /** No value, or a list with nothing behind its bracket. */
  predicate Missed(s: string, start: nat, endl: nat)
    requires start <= endl <= |s|
  {
    start == endl || (s[start] == '[' && start + 1 == |s|)
  }

  lemma MissedMoves(s: string, t: string, m: seq<nat>, start: nat, endl: nat)
    requires Maps(s, t, m) && start <= endl <= |s|
    ensures m[start] <= m[endl] <= |t| && Missed(t, m[start], m[endl]) == Missed(s, start, endl)
  {
    assert m[endl] <= m[|s|];
    if start < endl {
      assert Lands(s, t, m, start);
    }
  }

  lemma TextsMove(s: string, t: string, m: seq<nat>, begin: nat, endName: nat, start: nat, end: nat)
    requires Maps(s, t, m) && begin <= endName <= |s| && start <= end <= |s| && '\n' !in Strip(s[begin..endName])
    ensures m[begin] <= m[endName] <= |t| && Strip(t[m[begin]..m[endName]]) == Strip(s[begin..endName])
    ensures m[start] <= m[end] <= |t| && Strip(t[m[start]..m[end]]) == Crlf(Strip(s[start..end]))
  {
    StripPiece(s, t, m, begin, endName);
    StripPiece(s, t, m, start, end);
    NothingMoves(Strip(s[begin..endName]));
  }

  /** An option is read alike, and ends where it did. */
  lemma OptionMoves(s: string, t: string, m: seq<nat>, pos: nat)
    requires Maps(s, t, m) && pos <= |s|
    ensures m[pos] <= |t|
    ensures var (end, e) := ParseOption(s, pos); ParseOption(t, m[pos]) == (m[end], EntryMoved(e))
  {
    LineMoves(s, t, m, pos);
    var begin, endl, endc := Begin(s, pos), LineEnd(s, pos), TextEnd(s, pos);
    var eq := Find(s, begin, endc, c => c == '=');
    FindMoves(s, t, m, begin, endc, c => c == '=');
    if begin < eq < endc {
      OptionIsClean(s, pos);
      ValueMoves(s, t, m, eq, endl, endc);
      EntryMoves(s, t, m, begin, eq, endl, endc);
    }
  }

  // ----- whole files -----

  function MapMoved(vars: map<string, string>): map<string, string> {
    map k | k in vars :: Crlf(vars[k])
  }

  lemma NextMoves(s: string, t: string, m: seq<nat>, end: nat)
    requires Maps(s, t, m) && end <= |s| && '\r' !in s
    ensures m[end] <= |t| && NextLine(s, end) <= |s| && NextLine(t, m[end]) == m[NextLine(s, end)]
  {
    assert m[end] <= m[|s|];
    if end < |s| {
      assert Lands(s, t, m, end) && s[end] in s;
    }
  }

  lemma EmplaceMoves(vars: map<string, string>, e: Option<Entry>)
    ensures MapMoved(Emplace(vars, e)) == Emplace(MapMoved(vars), EntryMoved(e))
  {
  }

  lemma {:induction false} FileMoves(s: string, t: string, m: seq<nat>, pos: nat, vars: map<string, string>)
    requires Maps(s, t, m) && pos <= |s| && '\r' !in s
    ensures ParseFrom(t, m[pos], MapMoved(vars)) == MapMoved(ParseFrom(s, pos, vars))
    decreases |s| - pos
  {
    if pos < |s| {
      assert m[pos] < m[|s|];
      var (end, e) := ParseOption(s, pos);
      OptionMoves(s, t, m, pos);
      NextMoves(s, t, m, end);
      EmplaceMoves(vars, e);
      ParseStep(s, pos, vars);
      ParseStep(t, m[pos], MapMoved(vars));
      FileMoves(s, t, m, NextLine(s, end), Emplace(vars, e));
    }
  }

  /**
   * Every file with CR LF at its line ends is read as the same file with LF is, but for the line ends inside values; so
   * both are read alike if and only if no value goes over several lines.
   */
  lemma LineEndsDoNotMatter(s: string)
    requires '\r' !in s
    ensures ParseFrom(Crlf(s), 0, map[]) == MapMoved(ParseFrom(s, 0, map[]))
    ensures ParseFrom(Crlf(s), 0, map[]) == ParseFrom(s, 0, map[])
      <==> forall k :: k in ParseFrom(s, 0, map[]) ==> '\n' !in ParseFrom(s, 0, map[])[k]
  {
    var m := MapOf(s);
    FileMoves(s, Crlf(s), m, 0, map[]);
    assert MapMoved(map[]) == map[];
    SameValues(ParseFrom(s, 0, map[]));
  }

  lemma SameValues(vars: map<string, string>)
    ensures MapMoved(vars) == vars <==> forall k :: k in vars ==> '\n' !in vars[k]
  {
    forall k | k in vars
      ensures Crlf(vars[k]) == vars[k] <==> '\n' !in vars[k]
    {
      Longer(vars[k]);
      if '\n' !in vars[k] {
        NothingMoves(vars[k]);
      }
    }
    if MapMoved(vars) == vars {
      forall k | k in vars
        ensures '\n' !in vars[k]
      {
        assert MapMoved(vars)[k] == vars[k];
      }
    }
  }

  lemma {:induction false} Longer(t: string)
    ensures |Crlf(t)| >= |t| && ('\n' in t ==> |Crlf(t)| > |t|)
  {
    if t != "" {
      Longer(t[1..]);
    }
  }
}
