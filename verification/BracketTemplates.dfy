/** Scans from an angle bracket, and the operators spelled with one. */
module BracketTemplates {
  import opened Brackets

  // ---- Template text ----

  /** Text in which angle brackets pair up like the others. */
  datatype Template = Done | Char(c: char, rest: Template) | Group(open: char, inner: Template, rest: Template)

  predicate Opens(c: char) { IsOpen(c) || c == '<' }

  function Twin(c: char): (t: char) { if c == '<' then '>' else Mate(c) }

  /** Statements do not occur in it. */
  predicate Proper(d: Template) {
    match d
    case Done => true
    case Char(c, rest) => !IsOpen(c) && !IsClose(c) && !IsAngle(c) && c != ';' && Proper(rest)
    case Group(open, inner, rest) => Opens(open) && Proper(inner) && Proper(rest)
  }

  function Yield(d: Template): (s: string) {
    match d
    case Done => []
    case Char(c, rest) => [c] + Yield(rest)
    case Group(open, inner, rest) => [open] + Yield(inner) + [Twin(open)] + Yield(rest)
  }

  /** No angle bracket of a shift, an arrow, a comparison or an operator function. */
  predicate PlainAt(line: string, k: nat)
    requires k < |line|
  {
    IsAngle(line[k]) && k > 0 ==>
      && !BackwardSkips(line, k)
      && if line[k] == '<' then !EndsWithOperator(line[..k]) else !EndsWithOperator(line[..k - 1])
  }

  predicate Plain(line: string, a: nat, b: nat)
    requires b <= |line|
  {
    forall k :: a <= k < b ==> PlainAt(line, k)
  }

  predicate HasAt(line: string, i: nat, s: string) {
    i + |s| <= |line| && forall k :: 0 <= k < |s| ==> line[i + k] == s[k]
  }

  lemma Parts(line: string, i: nat, a: string, b: string)
    requires HasAt(line, i, a + b)
    ensures HasAt(line, i, a) && HasAt(line, i + |a|, b)
  {
    forall k | 0 <= k < |b| ensures line[i + |a| + k] == b[k] {
      assert (a + b)[|a| + k] == b[k];
    }
    forall k | 0 <= k < |a| ensures line[i + k] == a[k] {
      assert (a + b)[k] == a[k];
    }
  }

  lemma Pushed(st: string, c: char)
    requires st != []
    ensures Popped(st + [c]) == st && |st + [c]| > 1 && TopIs(st + [c], c)
    ensures c != '<' ==> WithoutAngles(st + [c], '<') == st + [c]
    ensures c != '>' ==> WithoutAngles(st + [c], '>') == st + [c]
  {
  }

  lemma YieldGroup(open: char, inner: Template, rest: Template)
    ensures Yield(Group(open, inner, rest)) == [open] + Yield(inner) + [Twin(open)] + Yield(rest)
  {
  }

  /** A bracket in the text and where its inside, its twin and the rest of the text stand. */
  lemma GroupAt(line: string, i: nat, open: char, inner: Template, rest: Template)
    requires HasAt(line, i, Yield(Group(open, inner, rest)))
    ensures var k := i + 1 + |Yield(inner)|;
            && HasAt(line, i + 1, Yield(inner)) && HasAt(line, k + 1, Yield(rest)) && k < |line|
            && line[i] == open && line[k] == Twin(open)
            && k + 1 + |Yield(rest)| == i + |Yield(Group(open, inner, rest))|
  {
    var a, b := Yield(inner), Yield(rest);
    hide Yield, HasAt;
    YieldGroup(open, inner, rest);
    Parts(line, i, [open] + a + [Twin(open)], b);
    Parts(line, i, [open] + a, [Twin(open)]);
    Parts(line, i, [open], a);
    OneChar(line, i, open);
    OneChar(line, i + 1 + |a|, Twin(open));
  }

  lemma OneChar(line: string, i: nat, c: char)
    requires HasAt(line, i, [c])
    ensures i < |line| && line[i] == c
  {
    assert line[i + 0] == [c][0];
  }

  lemma CharAt(line: string, i: nat, c: char, rest: Template)
    requires HasAt(line, i, Yield(Char(c, rest)))
    ensures line[i] == c && HasAt(line, i + 1, Yield(rest))
  {
    Parts(line, i, [c], Yield(rest));
    OneChar(line, i, c);
  }

  // ---- Forwards ----

  /** An opening bracket is pushed and its twin takes it off again. */
  lemma ForwardPair(line: string, i: nat, k: nat, st: string)
    requires i < k < |line| && Plain(line, i, k + 1) && st != [] && Opens(line[i]) && line[k] == Twin(line[i])
    ensures ForwardChar(line, i, st) == Pending(st + [line[i]])
    ensures ForwardChar(line, k, st + [line[i]]) == Pending(st)
  {
    hide EndsWithOperator, WithoutAngles;
    assert PlainAt(line, i) && PlainAt(line, k);
    Pushed(st, line[i]);
  }

  lemma PlainWithin(line: string, a: nat, b: nat, a': nat, b': nat)
    requires b <= |line| && Plain(line, a, b) && a <= a' && b' <= b
    ensures Plain(line, a', b')
  {
  }

  lemma Lengths(d: Template)
    ensures d.Done? ==> |Yield(d)| == 0
    ensures d.Char? ==> |Yield(d)| == 1 + |Yield(d.rest)|
    ensures d.Group? ==> |Yield(d)| == 2 + |Yield(d.inner)| + |Yield(d.rest)|
  {
  }

  /** Template text leaves the stack of a forward scan as it was. */
  lemma {:induction false} ForwardOver(line: string, i: nat, d: Template, st: string)
    requires Proper(d) && HasAt(line, i, Yield(d)) && Plain(line, i, i + |Yield(d)|) && st != []
    ensures Forward(line, i, st) == Forward(line, i + |Yield(d)|, st)
    decreases d
  {
    Lengths(d);
    var j := i + |Yield(d)|;
    hide ForwardChar, Plain, Yield;
    match d
    case Done =>
    case Char(c, rest) =>
      CharAt(line, i, c, rest);
      PlainWithin(line, i, j, i + 1, j);
      assert ForwardChar(line, i, st) == Pending(st) by { Passed(line, i, st); }
      ForwardOver(line, i + 1, rest, st);
    case Group(open, inner, rest) =>
      GroupAt(line, i, open, inner, rest);
      var k := i + 1 + |Yield(inner)|;
      PlainWithin(line, i, j, i, k + 1);
      PlainWithin(line, i, j, i + 1, k);
      PlainWithin(line, i, j, k + 1, j);
      ForwardPair(line, i, k, st);
      ForwardOver(line, i + 1, inner, st + [open]);
      ForwardOver(line, k + 1, rest, st);
  }

  /** A character that is no bracket and no semicolon changes nothing. */
  lemma Passed(line: string, i: nat, st: string)
    requires i < |line| && !IsOpen(line[i]) && !IsClose(line[i]) && !IsAngle(line[i]) && line[i] != ';'
    ensures ForwardChar(line, i, st) == Pending(st) == BackwardChar(line, i, st) && !BackwardSkips(line, i)
  {
  }

  // ---- Backwards ----

  lemma BackwardPair(line: string, i: nat, k: nat, st: string)
    requires i < k < |line| && Plain(line, i, k + 1) && st != [] && Opens(line[i]) && line[k] == Twin(line[i])
    ensures BackwardChar(line, k, st) == Pending(st + [line[k]]) && !BackwardSkips(line, k)
    ensures BackwardChar(line, i, st + [line[k]]) == Pending(st) && !BackwardSkips(line, i)
  {
    hide EndsWithOperator, WithoutAngles;
    assert PlainAt(line, i) && PlainAt(line, k);
    Pushed(st, line[k]);
  }

  /** Template text leaves the stack of a backward scan as it was. */
  lemma {:induction false} BackwardOver(line: string, i: nat, d: Template, st: string)
    requires Proper(d) && HasAt(line, i, Yield(d)) && Plain(line, i, i + |Yield(d)|) && st != []
    ensures Backward(line, i + |Yield(d)| - 1, st) == Backward(line, i - 1, st)
    decreases d
  {
    Lengths(d);
    var j := i + |Yield(d)|;
    hide BackwardChar, BackwardSkips, Plain, Yield;
    match d
    case Done =>
    case Char(c, rest) =>
      CharAt(line, i, c, rest);
      PlainWithin(line, i, j, i + 1, j);
      BackwardOver(line, i + 1, rest, st);
      Passed(line, i, st);
    case Group(open, inner, rest) =>
      GroupAt(line, i, open, inner, rest);
      var k := i + 1 + |Yield(inner)|;
      PlainWithin(line, i, j, i, k + 1);
      PlainWithin(line, i, j, i + 1, k);
      PlainWithin(line, i, j, k + 1, j);
      BackwardOver(line, k + 1, rest, st);
      BackwardPair(line, i, k, st);
      BackwardOver(line, i + 1, inner, st + [line[k]]);
  }

  /**
    On a line, the two angle brackets around template text find each other, from either end: through any
    nesting of brackets of all kinds, unless an angle bracket reads as an operator.
  */
  lemma TemplatesMatch(lines: seq<string>, n: nat, p: nat, d: Template)
    requires n < |lines| && Proper(d) && HasAt(lines[n], p, ['<'] + Yield(d) + ['>'])
    requires Plain(lines[n], p, p + |Yield(d)| + 2) && lines[n][p + 1] != '='
    ensures Close(lines, n, p) == At(n, p + |Yield(d)| + 2)
    ensures Open(lines, n, p + |Yield(d)| + 1) == At(n, p)
  {
    var line, k := lines[n], p + 1 + |Yield(d)|;
    Parts(line, p, ['<'] + Yield(d), ['>']);
    Parts(line, p, ['<'], Yield(d));
    OneChar(line, p, '<');
    OneChar(line, k, '>');
    PlainWithin(line, p, k + 1, p + 1, k);
    Outermost(line, p, k);
    hide ForwardChar, BackwardChar, BackwardSkips, Plain, Yield, HasAt;
    ForwardOver(line, p + 1, d, ['<']);
    BackwardOver(line, p + 1, d, ['>']);
  }

  lemma Outermost(line: string, p: nat, k: nat)
    requires p < k < |line| && line[p] == '<' && line[k] == '>' && Plain(line, p, k + 1)
    ensures ForwardChar(line, p, []) == Pending(['<']) && ForwardChar(line, k, ['<']) == Found(k + 1)
    ensures BackwardChar(line, k, []) == Pending(['>']) && !BackwardSkips(line, k)
    ensures BackwardChar(line, p, ['>']) == Found(p) && !BackwardSkips(line, p) && line[p + 1] != '<'
  {
    hide EndsWithOperator;
    assert [] + ['<'] == ['<'] && [] + ['>'] == ['>'];
    assert PlainAt(line, p) && PlainAt(line, k) && PlainAt(line, p + 1);
  }

  // ---- Operators ----

  /** An arrow is stepped over in both directions. */
  lemma ArrowPassed(line: string, i: nat, st: string)
    requires i + 1 < |line| && line[i] == '-' && line[i + 1] == '>'
    ensures Forward(line, i, st) == Forward(line, i + 2, st)
    ensures Backward(line, i + 1, st) == Backward(line, i - 1, st)
  {
    hide EndsWithOperator;
    assert Forward(line, i, st) == Forward(line, i + 1, st);
  }

  /** A left shift is, too; forwards only inside some bracket, and if no third angle bracket or keyword is before it. */
  lemma ShiftPassed(line: string, i: nat, st: string)
    requires i + 1 < |line| && line[i] == line[i + 1] == '<'
    ensures Backward(line, i + 1, st) == Backward(line, i - 1, st)
    ensures i == 0 || (line[i - 1] != '<' && !EndsWithOperator(line[..i])) ==>
              Forward(line, i, st) == if st == [] then Broken else Forward(line, i + 2, st)
  {
    hide EndsWithOperator;
    if i == 0 || (line[i - 1] != '<' && !EndsWithOperator(line[..i])) {
      assert Forward(line, i, st) == Forward(line, i + 1, st + ['<']);
      assert Popped(st + ['<']) == st;
    }
  }

  /** The name of an operator function: the smaller-than sign forwards, the greater-than sign backwards. */
  lemma OperatorNamePassed(line: string, i: nat, st: string)
    requires 0 < i < |line| && EndsWithOperator(line[..i])
    ensures line[i] == '<' && line[i - 1] != '<' ==> Forward(line, i, st) == Forward(line, i + 1, st)
    ensures line[i] == '>' ==> Backward(line, i, st) == Backward(line, i - 2, st)
  {
    hide EndsWithOperator;
  }

  /** A comparison between blanks is stepped over backwards. */
  lemma ComparisonPassed(line: string, i: nat, st: string)
    requires 0 < i && i + 2 < |line| && line[i] == '>' && line[i + 1] == '='
    requires IsSpace(line[i - 1]) && IsSpace(line[i + 2])
    ensures Backward(line, i, st) == Backward(line, i - 2, st)
  {
    hide EndsWithOperator;
  }

  /** A statement ends in the middle: the angle brackets still open were operators. */
  lemma StatementEnds(line: string, i: nat, st: string, angles: string)
    requires i < |line| && line[i] == ';' && !TopIs(st, '<') && forall c <- angles :: c == '<'
    ensures Forward(line, i, st + angles) == if st == [] then Broken else Forward(line, i + 1, st)
  {
    AnglesDropped(st, angles, '<');
  }

  lemma StatementBegins(line: string, i: nat, st: string, angles: string)
    requires i < |line| && line[i] == ';' && !TopIs(st, '>') && forall c <- angles :: c == '>'
    ensures Backward(line, i, st + angles) == if st == [] then Broken else Backward(line, i - 1, st)
  {
    AnglesDropped(st, angles, '>');
  }

  lemma {:induction false} AnglesDropped(st: string, angles: string, angle: char)
    requires !TopIs(st, angle) && forall c <- angles :: c == angle
    ensures WithoutAngles(st + angles, angle) == st
    decreases |angles|
  {
    if angles == [] {
      assert st + angles == st;
    } else {
      assert angles[|angles| - 1] in angles && forall c <- Popped(angles) :: c in angles;
      assert Popped(st + angles) == st + Popped(angles);
      AnglesDropped(st, Popped(angles), angle);
    }
  }
}
