/**
 * `$`-expansion of environment values, src/process.cpp: the loop of parse_env_val over `pos`, `dollar` and `next`
 * against a recursive expander.
 */
module EnvExpand {
  import opened Basics

  type Env = map<string, string>

  /** A variable that is not set is empty. */
  function Lookup(env: Env, name: string): string {
    if name in env then env[name] else ""
  }

  // ----- brackets -----

  function Nest(c: char, stack: nat): nat
    requires stack > 0
  {
    if c == '(' then stack + 1 else if c == ')' then stack - 1 else stack
  }

  /** Where the last of `stack` open brackets is closed, reading from `pos`. */
  function Closing(s: string, pos: nat, stack: nat): (m: Option<nat>)
    requires pos <= |s| && stack > 0
    ensures m.Some? ==> pos <= m.value < |s| && s[m.value] == ')'
    decreases |s| - pos
  {
    if pos == |s| then None
    else if Nest(s[pos], stack) == 0 then Some(pos)
    else Closing(s, pos + 1, Nest(s[pos], stack))
  }

  /** find_match, called on an opening bracket. None stands for the exception. */
  method FindMatch(s: string, begin: nat) returns (m: Option<nat>)
    requires begin < |s| && s[begin] == '('
    ensures m == Closing(s, begin + 1, 1)
  {
    var stack, i := 1, begin;
    while i != |s| && stack != 0
      invariant begin <= i <= |s| && stack >= 0
      invariant stack == 0 ==> i < |s| && Closing(s, begin + 1, 1) == Some(i)
      invariant stack > 0 && i < |s| ==> Closing(s, begin + 1, 1) == Closing(s, i + 1, stack)
      invariant stack > 0 && i == |s| ==> Closing(s, begin + 1, 1) == None
      decreases |s| - i, stack
    {
      i := i + 1;
      // at the end of the string nothing that is read makes a difference
      if i < |s| {
        if s[i] == '(' {
          stack := stack + 1;
        } else if s[i] == ')' {
          stack := stack - 1;
        }
      }
    }
    return if i == |s| then None else Some(i);
  }

  // ----- the expander -----

  function Prepend(s: string, r: Option<string>): Option<string> {
    match r case Some(t) => Some(s + t) case None => None
  }

  /** The expansion of the text from `pos` on; None if a bracket is not closed. */
  function Expand(s: string, pos: nat, env: Env): Option<string>
    requires pos <= |s|
    decreases |s| - pos
  {
    if pos == |s| then Some("")
    else if s[pos] == '$' && pos + 1 < |s| && s[pos + 1] == '$' then Prepend("$", Expand(s, pos + 2, env))
    else if s[pos] == '$' && pos + 1 < |s| && s[pos + 1] == '(' then
      match Closing(s, pos + 2, 1)
      case None => None
      case Some(m) => Prepend(Lookup(env, s[pos + 2..m]), Expand(s, m + 1, env))
    else Prepend([s[pos]], Expand(s, pos + 1, env))
  }

  lemma PrependTwice(a: string, b: string, r: Option<string>)
    ensures Prepend(a, Prepend(b, r)) == Prepend(a + b, r)
  {
    if r.Some? {
      assert a + (b + r.value) == (a + b) + r.value;
    }
  }

  /** Text without a dollar stands for itself. */
  lemma {:induction false} Plain(s: string, pos: nat, end: nat, env: Env)
    requires pos <= end <= |s| && forall i :: pos <= i < end ==> s[i] != '$'
    ensures Expand(s, pos, env) == Prepend(s[pos..end], Expand(s, end, env))
    decreases end - pos
  {
    if pos == end {
      assert s[pos..end] == "";
      PrependNothing(Expand(s, end, env));
    } else {
      Plain(s, pos + 1, end, env);
      PrependTwice([s[pos]], s[pos + 1..end], Expand(s, end, env));
      assert [s[pos]] + s[pos + 1..end] == s[pos..end];
    }
  }

  lemma PrependNothing(r: Option<string>)
    ensures Prepend("", r) == r
  {
    if r.Some? {
      assert "" + r.value == r.value;
    }
  }

  // ----- the loop -----

  function FindDollar(s: string, from: nat): (i: nat)
    requires from <= |s|
    ensures from <= i <= |s| && (i < |s| ==> s[i] == '$') && forall k :: from <= k < i ==> s[k] != '$'
    decreases |s| - from
  {
    if from == |s| || s[from] == '$' then from else FindDollar(s, from + 1)
  }

  /** What is written, what is not yet written but needs no change, and the expansion of the rest make up the result. */
  ghost predicate Progress(s: string, env: Env, ss: string, pos: nat, dollar: nat) {
    pos <= dollar <= |s| && Expand(s, 0, env) == Prepend(ss + s[pos..dollar], Expand(s, dollar, env))
  }

  /** Moving `dollar` on to the next one, from `next`, which only text without a dollar separates. */
  lemma NextDollar(s: string, env: Env, ss: string, pos: nat, next: nat)
    requires Progress(s, env, ss, pos, next)
    ensures Progress(s, env, ss, pos, FindDollar(s, next))
  {
    var dollar := FindDollar(s, next);
    Plain(s, next, dollar, env);
    PrependTwice(ss + s[pos..next], s[next..dollar], Expand(s, dollar, env));
    assert (ss + s[pos..next]) + s[next..dollar] == ss + s[pos..dollar];
  }

  /** Something expanded at `dollar`: it is written behind the pending text, and reading goes on at `pos'`. */
  lemma Written(s: string, env: Env, ss: string, pos: nat, dollar: nat, value: string, pos': nat)
    requires Progress(s, env, ss, pos, dollar) && pos' <= |s|
    requires Expand(s, dollar, env) == Prepend(value, Expand(s, pos', env))
    ensures Progress(s, env, ss + s[pos..dollar] + value, pos', pos')
  {
    PrependTwice(ss + s[pos..dollar], value, Expand(s, pos', env));
    assert s[pos'..pos'] == "";
    assert ss + s[pos..dollar] + value + "" == ss + s[pos..dollar] + value;
  }

  /** A dollar in front of anything else, or at the end, is only text. */
  lemma LoneDollar(s: string, env: Env, ss: string, pos: nat, dollar: nat)
    requires Progress(s, env, ss, pos, dollar) && dollar < |s| && s[dollar] == '$'
    requires dollar + 1 < |s| ==> s[dollar + 1] != '$' && s[dollar + 1] != '('
    ensures Progress(s, env, ss, pos, dollar + 1)
  {
    PrependTwice(ss + s[pos..dollar], "$", Expand(s, dollar + 1, env));
    assert (ss + s[pos..dollar]) + "$" == ss + s[pos..dollar + 1];
  }

  lemma SubstituteStep(s: string, env: Env, ss: string, pos: nat, dollar: nat, m: nat)
    requires Progress(s, env, ss, pos, dollar) && dollar + 1 < |s| && s[dollar] == '$' && s[dollar + 1] == '('
    requires Closing(s, dollar + 2, 1) == Some(m)
    ensures Progress(s, env, ss + s[pos..dollar] + Lookup(env, s[dollar + 2..m]), m + 1, FindDollar(s, m))
  {
    var value := Lookup(env, s[dollar + 2..m]);
    Written(s, env, ss, pos, dollar, value, m + 1);
    NextDollar(s, env, ss + s[pos..dollar] + value, m + 1, m + 1);
  }

  lemma DoubleStep(s: string, env: Env, ss: string, pos: nat, dollar: nat)
    requires Progress(s, env, ss, pos, dollar) && dollar + 1 < |s| && s[dollar] == '$' && s[dollar + 1] == '$'
    ensures Progress(s, env, ss + s[pos..dollar + 1], dollar + 2, FindDollar(s, dollar + 2))
  {
    Written(s, env, ss, pos, dollar, "$", dollar + 2);
    assert s[pos..dollar + 1] == s[pos..dollar] + "$";
    assert ss + s[pos..dollar + 1] == ss + s[pos..dollar] + "$";
    NextDollar(s, env, ss + s[pos..dollar + 1], dollar + 2, dollar + 2);
  }

  method ParseEnvVal(env: Env, s: string) returns (r: Option<string>)
    ensures r == Expand(s, 0, env)
  {
    var pos: nat := 0;
    var dollar := FindDollar(s, pos);
    var ss := "";
    Start(s, env);
    while dollar != |s|
      invariant Progress(s, env, ss, pos, dollar) && (dollar < |s| ==> s[dollar] == '$')
      decreases |s| - dollar
    {
      var next := dollar + 1;
      if next != |s| {
        if s[next] == '(' {
          var varBegin := next + 1;
          var varEnd := FindMatch(s, next);
          if varEnd.None? {
            return None;
          }
          var name := s[varBegin..varEnd.value];
          SubstituteStep(s, env, ss, pos, dollar, varEnd.value);
          ss := ss + s[pos..dollar];
          ss := ss + Lookup(env, name);
          pos := varEnd.value + 1;
          next := varEnd.value;
        } else if s[next] == '$' {
          DoubleStep(s, env, ss, pos, dollar);
          ss := ss + s[pos..next];
          pos := next + 1;
          next := next + 1;
        } else {
          LoneDollar(s, env, ss, pos, dollar);
          NextDollar(s, env, ss, pos, next);
        }
        dollar := FindDollar(s, next);
      } else {
        LoneDollar(s, env, ss, pos, dollar);
        dollar := next;
      }
    }
    ss := ss + s[pos..dollar];
    assert ss + "" == ss;
    r := Some(ss);
  }

  lemma Start(s: string, env: Env)
    ensures Progress(s, env, "", 0, FindDollar(s, 0))
  {
    assert "" + s[0..0] == "";
    PrependNothing(Expand(s, 0, env));
    NextDollar(s, env, "", 0, 0);
  }

  // ----- what templates mean -----

  datatype Part = Literal(text: string) | Variable(name: string)

  function DoubleChar(c: char): string {
    if c == '$' then "$$" else [c]
  }

  function Double(t: string): string {
    if t == "" then "" else DoubleChar(t[0]) + Double(t[1..])
  }

  function RenderPart(part: Part): string {
    match part case Literal(t) => Double(t) case Variable(x) => "$(" + (x + ")")
  }

  function Render(parts: seq<Part>): string {
    if parts == [] then "" else RenderPart(parts[0]) + Render(parts[1..])
  }

  function PartMeaning(part: Part, env: Env): string {
    match part case Literal(t) => t case Variable(x) => Lookup(env, x)
  }

  function Meaning(parts: seq<Part>, env: Env): string {
    if parts == [] then "" else PartMeaning(parts[0], env) + Meaning(parts[1..], env)
  }

  /** From `pos` on, the brackets of `x` never close more than `stack` and leave one open. */
  predicate Balanced(x: string, pos: nat, stack: nat)
    requires pos <= |x| && stack > 0
    decreases |x| - pos
  {
    if pos == |x| then stack == 1 else Nest(x[pos], stack) > 0 && Balanced(x, pos + 1, Nest(x[pos], stack))
  }

  /** The bracket behind `x` is the closing one exactly if the brackets inside are balanced. */
  lemma {:induction false} ClosesBehind(s: string, at: nat, x: string, i: nat, stack: nat)
    requires at + |x| < |s| && s[at..at + |x|] == x && s[at + |x|] == ')' && i <= |x| && stack > 0
    ensures Closing(s, at + i, stack) == Some(at + |x|) <==> Balanced(x, i, stack)
    decreases |x| - i
  {
    if i < |x| {
      assert s[at + i] == s[at..at + |x|][i];
      if Nest(x[i], stack) > 0 {
        ClosesBehind(s, at, x, i + 1, Nest(x[i], stack));
      }
    } else if Nest(')', stack) > 0 {
      ClosingLater(s, at + |x| + 1, Nest(')', stack));
    }
  }

  lemma ClosingLater(s: string, pos: nat, stack: nat)
    requires pos <= |s| && stack > 0
    ensures Closing(s, pos, stack).Some? ==> Closing(s, pos, stack).value >= pos
  {
  }

  /** The text `a` stands at `pos`. */
  ghost predicate Stands(s: string, pos: nat, a: string) {
    pos + |a| <= |s| && s[pos..pos + |a|] == a
  }

  lemma StandParts(s: string, pos: nat, a: string, b: string)
    requires Stands(s, pos, a + b)
    ensures Stands(s, pos, a) && Stands(s, pos + |a|, b)
  {
    var t := a + b;
    assert t[..|a|] == a && t[|a|..] == b;
    SliceOfSlice(s, pos, pos + |t|, 0, |a|);
    SliceOfSlice(s, pos, pos + |t|, |a|, |t|);
  }

  lemma StandsAt(s: string, pos: nat, a: string, i: nat)
    requires Stands(s, pos, a) && i < |a|
    ensures s[pos + i] == a[i]
  {
    assert s[pos..pos + |a|][i] == a[i];
  }

  lemma CharExpands(s: string, pos: nat, c: char, env: Env)
    requires Stands(s, pos, DoubleChar(c))
    ensures Expand(s, pos, env) == Prepend([c], Expand(s, pos + |DoubleChar(c)|, env))
  {
    StandsAt(s, pos, DoubleChar(c), 0);
    if c == '$' {
      StandsAt(s, pos, DoubleChar(c), 1);
    }
  }

  lemma CharThenText(s: string, pos: nat, t: string, c: char, rest: string, env: Env)
    requires t == DoubleChar(c) + rest && Stands(s, pos, t)
    ensures |t| == |DoubleChar(c)| + |rest| && Stands(s, pos + |DoubleChar(c)|, rest)
    ensures Expand(s, pos, env) == Prepend([c], Expand(s, pos + |DoubleChar(c)|, env))
  {
    StandParts(s, pos, DoubleChar(c), rest);
    CharExpands(s, pos, c, env);
  }

  lemma {:induction false} TextExpands(s: string, pos: nat, t: string, env: Env)
    requires Stands(s, pos, Double(t))
    ensures Expand(s, pos, env) == Prepend(t, Expand(s, pos + |Double(t)|, env))
    decreases |t|
  {
    if t == "" {
      PrependNothing(Expand(s, pos, env));
    } else {
      var c, rest := t[0], t[1..];
      CharThenText(s, pos, Double(t), c, Double(rest), env);
      TextExpands(s, pos + |DoubleChar(c)|, rest, env);
      PrependTwice([c], rest, Expand(s, pos + |Double(t)|, env));
      assert [c] + rest == t;
    }
  }

  lemma VariableExpands(s: string, pos: nat, x: string, env: Env)
    requires Stands(s, pos, "$(" + (x + ")")) && Balanced(x, 0, 1)
    ensures Expand(s, pos, env) == Prepend(Lookup(env, x), Expand(s, pos + |x| + 3, env))
  {
    VariableStands(s, pos, x);
    ClosesBehind(s, pos + 2, x, 0, 1);
  }

  lemma VariableStands(s: string, pos: nat, x: string)
    requires Stands(s, pos, "$(" + (x + ")"))
    ensures pos + |x| + 2 < |s| && s[pos] == '$' && s[pos + 1] == '(' && s[pos + 2 + |x|] == ')'
    ensures s[pos + 2..pos + 2 + |x|] == x
  {
    StandParts(s, pos, "$(", x + ")");
    StandsAt(s, pos, "$(", 0);
    StandsAt(s, pos, "$(", 1);
    StandParts(s, pos + 2, x, ")");
    StandsAt(s, pos + 2 + |x|, ")", 0);
  }

  ghost predicate Proper(part: Part) {
    part.Variable? ==> Balanced(part.name, 0, 1)
  }

  lemma PartExpands(s: string, pos: nat, part: Part, env: Env)
    requires Stands(s, pos, RenderPart(part)) && Proper(part)
    ensures Expand(s, pos, env) == Prepend(PartMeaning(part, env), Expand(s, pos + |RenderPart(part)|, env))
  {
    match part
    case Literal(t) => TextExpands(s, pos, t, env);
    case Variable(x) => VariableExpands(s, pos, x, env);
  }

  lemma {:induction false} RenderedExpands(s: string, pos: nat, parts: seq<Part>, env: Env)
    requires Stands(s, pos, Render(parts)) && pos + |Render(parts)| == |s|
    requires forall i :: 0 <= i < |parts| ==> Proper(parts[i])
    ensures Expand(s, pos, env) == Some(Meaning(parts, env))
    decreases |parts|
  {
    if parts != [] {
      PartThenText(s, pos, Render(parts), parts[0], Render(parts[1..]), env);
      RenderedExpands(s, pos + |RenderPart(parts[0])|, parts[1..], env);
    }
  }

  /** The first part of a template expands, and the text of the rest stands behind it. */
  lemma PartThenText(s: string, pos: nat, t: string, part: Part, rest: string, env: Env)
    requires t == RenderPart(part) + rest && Stands(s, pos, t) && Proper(part)
    ensures |t| == |RenderPart(part)| + |rest| && Stands(s, pos + |RenderPart(part)|, rest)
    ensures Expand(s, pos, env) == Prepend(PartMeaning(part, env), Expand(s, pos + |RenderPart(part)|, env))
  {
    StandParts(s, pos, RenderPart(part), rest);
    PartExpands(s, pos, part, env);
  }

  /** A template of doubled text and variables, whose names may nest brackets, expands to its text and their values. */
  lemma TemplateExpands(parts: seq<Part>, env: Env)
    requires forall i :: 0 <= i < |parts| ==> Proper(parts[i])
    ensures Expand(Render(parts), 0, env) == Some(Meaning(parts, env))
  {
    assert Render(parts)[0..|Render(parts)|] == Render(parts);
    RenderedExpands(Render(parts), 0, parts, env);
  }

  /** A dollar that begins neither a variable nor a doubled dollar. */
  predicate Lone(s: string, i: nat)
    requires i < |s|
  {
    s[i] == '$' && (i + 1 == |s| || (s[i + 1] != '$' && s[i + 1] != '('))
  }

  lemma {:induction false} LoneDollarsFrom(s: string, pos: nat, env: Env)
    requires pos <= |s| && forall i :: 0 <= i < |s| && s[i] == '$' ==> Lone(s, i)
    ensures Expand(s, pos, env) == Some(s[pos..])
    decreases |s| - pos
  {
    if pos < |s| {
      LoneDollarsFrom(s, pos + 1, env);
      assert [s[pos]] + s[pos + 1..] == s[pos..];
      assert s[pos] == '$' ==> Lone(s, pos);
    }
  }

  /** A text whose dollars are all lone, the last character included, expands to itself. */
  lemma LoneDollarsStay(s: string, env: Env)
    requires forall i :: 0 <= i < |s| && s[i] == '$' ==> Lone(s, i)
    ensures Expand(s, 0, env) == Some(s)
  {
    LoneDollarsFrom(s, 0, env);
    assert s[0..] == s;
  }

  /** A variable begins here whose bracket is not closed. */
  ghost predicate Unclosed(s: string, at: nat) {
    at + 2 <= |s| && s[at] == '$' && s[at + 1] == '(' && Closing(s, at + 2, 1).None?
  }

  lemma UnclosedHere(s: string, at: nat, env: Env)
    requires Unclosed(s, at)
    ensures Expand(s, at, env) == None
  {
  }

  /** Behind any template, a variable whose bracket is not closed makes the whole expansion fail. */
  lemma {:induction false} UnclosedFails(s: string, pos: nat, parts: seq<Part>, at: nat, env: Env)
    requires Stands(s, pos, Render(parts)) && forall i :: 0 <= i < |parts| ==> Proper(parts[i])
    requires at == pos + |Render(parts)| && Unclosed(s, at)
    ensures Expand(s, pos, env) == None
    decreases |parts|
  {
    if parts == [] {
      UnclosedHere(s, pos, env);
    } else {
      PartThenText(s, pos, Render(parts), parts[0], Render(parts[1..]), env);
      UnclosedFails(s, pos + |RenderPart(parts[0])|, parts[1..], at, env);
      assert Expand(s, pos + |RenderPart(parts[0])|, env) == None;
    }
  }

  /** Any text at all, with every dollar doubled, comes back as it was. */
  lemma DoubledComesBack(t: string, env: Env)
    ensures Expand(Double(t), 0, env) == Some(t)
  {
    TemplateExpands([Literal(t)], env);
    assert Double(t) + "" == Double(t) && t + "" == t;
    assert [Literal(t)][1..] == [];
  }
}
