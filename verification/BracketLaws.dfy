/** From a round, square or curly bracket the scanners find exactly the properly nested match. */
module BracketLaws {
  import opened Brackets

  // ---- The grammar of properly nested text ----

  /** Text in which every bracket is closed by its mate, in order; angle brackets are characters like others. */
  datatype Nested = Empty | Other(c: char, rest: Nested) | Pair(open: char, inner: Nested, rest: Nested)

  predicate Proper(d: Nested) {
    match d
    case Empty => true
    case Other(c, rest) => !IsOpen(c) && !IsClose(c) && Proper(rest)
    case Pair(open, inner, rest) => IsOpen(open) && Proper(inner) && Proper(rest)
  }

  function Yield(d: Nested): (s: string) {
    match d
    case Empty => []
    case Other(c, rest) => [c] + Yield(rest)
    case Pair(open, inner, rest) => [open] + Yield(inner) + [Mate(open)] + Yield(rest)
  }

  ghost predicate IsNested(s: string) {
    exists d :: Proper(d) && s == Yield(d)
  }

  /** The text from one place up to, but not including, another. */
  function Span(lines: seq<string>, n: nat, p: nat, m: nat, q: nat): (s: string)
    requires n <= m < |lines| && p <= |lines[n]| && q <= |lines[m]| && (n == m ==> p <= q)
    decreases m - n
  {
    if n == m then lines[n][p..q] else lines[n][p..] + Span(lines, n + 1, 0, m, q)
  }

  predicate Somewhere(lines: seq<string>, n: nat, p: nat) {
    n < |lines| && p < |lines[n]|
  }

  /** The bracket at (n, p) is closed by the one at (m, q). */
  ghost predicate ClosedBy(lines: seq<string>, n: nat, p: nat, m: nat, q: nat) {
    && Somewhere(lines, n, p) && Somewhere(lines, m, q) && (n < m || (n == m && p < q))
    && IsOpen(lines[n][p]) && lines[m][q] == Mate(lines[n][p])
    && IsNested(Span(lines, n, p + 1, m, q))
  }

  // ---- The stack machine behind the scanners ----

  /** One position further on. */
  function Later(r: Scan): (r': Scan) { if r.Found? then Found(r.pos + 1) else r }

  function Run(s: string, st: string): (r: Scan)
    ensures r.Found? ==> 0 < r.pos <= |s|
    decreases |s|
  {
    if s == [] then Pending(st)
    else if IsOpen(s[0]) then Later(Run(s[1..], st + [s[0]]))
    else if IsClose(s[0]) then
      if !TopIs(st, Mate(s[0])) then Broken
      else if |st| == 1 then Found(1)
      else Later(Run(s[1..], Popped(st)))
    else Later(Run(s[1..], st))
  }

  function Moved(r: Scan, k: nat): (r': Scan) { if r.Found? then Found(r.pos + k) else r }

  lemma {:induction false} RunConcat(a: string, b: string, st: string)
    ensures Run(a + b, st) ==
            var r := Run(a, st); if r.Pending? then Moved(Run(b, r.stack), |a|) else r
    decreases |a|
  {
    if a == [] {
      assert a + b == b;
    } else {
      var c := a[0];
      assert (a + b)[0] == c && (a + b)[1..] == a[1..] + b;
      var st' := if IsOpen(c) then st + [c]
                 else if IsClose(c) && TopIs(st, Mate(c)) then Popped(st) else st;
      RunConcat(a[1..], b, st');
    }
  }

  // ---- The machine accepts exactly the nested texts ----

  lemma RunOther(c: char, s: string, st: string)
    requires !IsOpen(c) && !IsClose(c)
    ensures Run([c] + s, st) == Later(Run(s, st))
  {
    assert ([c] + s)[1..] == s;
  }

  lemma RunOpen(c: char, s: string, st: string)
    requires IsOpen(c)
    ensures Run([c] + s, st) == Later(Run(s, st + [c]))
  {
    assert ([c] + s)[1..] == s;
  }

  lemma RunClose(c: char, s: string, st: string)
    requires IsOpen(c) && st != []
    ensures Run([Mate(c)] + s, st + [c]) == Later(Run(s, st))
  {
    assert ([Mate(c)] + s)[1..] == s && Popped(st + [c]) == st;
  }

  lemma {:induction false} NestedIsNeutral(d: Nested, s: string, st: string)
    requires Proper(d) && st != []
    ensures Run(Yield(d) + s, st) == Moved(Run(s, st), |Yield(d)|)
    decreases d
  {
    hide Run, Mate;
    match d
    case Empty =>
      assert Yield(d) + s == s;
    case Other(c, rest) =>
      assert Yield(d) + s == [c] + (Yield(rest) + s);
      RunOther(c, Yield(rest) + s, st);
      NestedIsNeutral(rest, s, st);
    case Pair(open, inner, rest) =>
      var t := [Mate(open)] + (Yield(rest) + s);
      assert Yield(d) + s == [open] + (Yield(inner) + t);
      RunOpen(open, Yield(inner) + t, st);
      NestedIsNeutral(inner, t, st + [open]);
      RunClose(open, Yield(rest) + s, st);
      NestedIsNeutral(rest, s, st);
  }

  /** The texts that close every bracket of a stack, top first. */
  function Unwound(ds: seq<Nested>, st: string): (s: string)
    requires |ds| == |st|
    decreases |st|
  {
    if st == [] then []
    else
      var k := |st| - 1;
      Yield(ds[k]) + ([Mate(st[k])] + Unwound(ds[..k], st[..k]))
  }

  predicate AllProper(ds: seq<Nested>) {
    forall k :: 0 <= k < |ds| ==> Proper(ds[k])
  }

  /** What the machine reads until it answers is nested text closing its stack. */
  lemma {:induction false} FoundIsNested(s: string, st: string) returns (ds: seq<Nested>)
    requires st != [] && (forall k :: 0 <= k < |st| ==> IsOpen(st[k])) && Run(s, st).Found?
    ensures |ds| == |st| && AllProper(ds) && s[..Run(s, st).pos] == Unwound(ds, st)
    decreases |s|
  {
    hide Unwound, Yield;
    var c, n := s[0], |st| - 1;
    var base, top := Popped(st), st[n];
    assert st == base + [top];
    var end := Run(s, st).pos;
    assert s[..end] == [c] + s[1..][..end - 1];
    if IsOpen(c) {
      var es := FoundIsNested(s[1..], st + [c]);
      ds := es[..n] + [Pair(c, es[n + 1], es[n])];
      assert es == es[..n] + [es[n]] + [es[n + 1]];
      PairUnwound(es[..n], es[n], es[n + 1], base, top, c);
    } else if IsClose(c) && n == 0 {
      ds := [] + [Empty];
      EmptyUnwound([], base, top);
    } else if IsClose(c) {
      var es := FoundIsNested(s[1..], base);
      ds := es + [Empty];
      EmptyUnwound(es, base, top);
    } else {
      var es := FoundIsNested(s[1..], st);
      ds := es[..n] + [Other(c, es[n])];
      assert es == es[..n] + [es[n]];
      OtherUnwound(es[..n], es[n], base, top, c);
    }
  }

  lemma EmptyUnwound(ds: seq<Nested>, st: string, top: char)
    requires |ds| == |st|
    ensures Unwound(ds + [Empty], st + [top]) == [Mate(top)] + Unwound(ds, st)
    ensures st == [] ==> Unwound(ds + [Empty], st + [top]) == [Mate(top)]
  {
    UnwindTop(ds, Empty, st, top);
  }

  lemma OtherUnwound(ds: seq<Nested>, rest: Nested, st: string, top: char, c: char)
    requires |ds| == |st|
    ensures Unwound(ds + [Other(c, rest)], st + [top]) == [c] + Unwound(ds + [rest], st + [top])
  {
    hide Unwound;
    UnwindTop(ds, Other(c, rest), st, top);
    UnwindTop(ds, rest, st, top);
  }

  lemma PairUnwound(ds: seq<Nested>, rest: Nested, inner: Nested, st: string, top: char, c: char)
    requires |ds| == |st|
    ensures Unwound(ds + [Pair(c, inner, rest)], st + [top]) ==
            [c] + Unwound(ds + [rest] + [inner], st + [top] + [c])
  {
    hide Unwound, Mate, Yield;
    var tail := [Mate(top)] + Unwound(ds, st);
    UnwindTop(ds, Pair(c, inner, rest), st, top);
    UnwindTop(ds, rest, st, top);
    UnwindTop(ds + [rest], inner, st + [top], c);
    YieldPair(c, inner, rest);
    Regroup([c], Yield(inner), [Mate(c)], Yield(rest), tail);
  }

  lemma YieldPair(c: char, inner: Nested, rest: Nested)
    ensures Yield(Pair(c, inner, rest)) == [c] + Yield(inner) + [Mate(c)] + Yield(rest)
  {
  }

  lemma UnwindTop(ds: seq<Nested>, d: Nested, st: string, c: char)
    requires |ds| == |st|
    ensures Unwound(ds + [d], st + [c]) == Yield(d) + ([Mate(c)] + Unwound(ds, st))
  {
    hide Yield, Mate;
    assert (ds + [d])[..|st|] == ds && (st + [c])[..|st|] == st;
  }

  lemma Regroup(a: string, b: string, c: string, d: string, e: string)
    ensures (a + b + c + d) + e == a + (b + (c + (d + e)))
  {
  }

  /** The whole of s is a bracket, nested text and the bracket's mate. */
  ghost predicate Bracketed(s: string) {
    |s| >= 2 && IsOpen(s[0]) && s[|s| - 1] == Mate(s[0]) && IsNested(s[1..|s| - 1])
  }

  lemma RunIffBracketed(s: string)
    requires s != [] && IsOpen(s[0])
    ensures Run(s, []) == Found(|s|) <==> Bracketed(s)
  {
    var c, t := s[0], s[1..];
    assert [] + [c] == [c] && s == [c] + t;
    assert Run(s, []) == Later(Run(t, [c]));
    hide Run, Mate, Bracketed;
    if Run(t, [c]) == Found(|t|) {
      OneBracket(t, c);
    }
    if Bracketed(s) {
      BracketRead(t, c);
    }
  }

  lemma BracketRead(t: string, c: char)
    requires IsOpen(c) && Bracketed([c] + t)
    ensures Run(t, [c]) == Found(|t|)
  {
    hide Run, Mate, IsNested;
    var n := |t| - 1;
    assert ([c] + t)[1..n + 1] == t[..n];
    assert t == t[..n] + [Mate(c)];
    NestedThenClose(t[..n], c);
  }

  lemma NestedThenClose(s: string, c: char)
    requires IsOpen(c) && IsNested(s)
    ensures Run(s + [Mate(c)], [c]) == Found(|s| + 1)
  {
    hide Run, Mate, Yield, Proper;
    var d :| Proper(d) && s == Yield(d);
    ReadThenClose(d, c);
  }

  lemma ReadThenClose(d: Nested, c: char)
    requires Proper(d) && IsOpen(c)
    ensures Run(Yield(d) + [Mate(c)], [c]) == Found(|Yield(d)| + 1)
  {
    hide Run, Yield, Proper;
    NestedIsNeutral(d, [Mate(c)], [c]);
    CloseOne(c);
  }

  lemma OneBracket(t: string, c: char)
    requires IsOpen(c) && Run(t, [c]) == Found(|t|)
    ensures Bracketed([c] + t)
  {
    hide Run, Mate, Yield, Unwound;
    var ds := FoundIsNested(t, [c]);
    assert t[..|t|] == t && ds == [] + [ds[0]] && [c] == [] + [c];
    UnwindTop([], ds[0], [], c);
    NothingUnwound();
    assert t == Yield(ds[0]) + [Mate(c)];
    assert ([c] + t)[1..|t|] == Yield(ds[0]);
    assert IsNested(Yield(ds[0]));
  }

  lemma NothingUnwound()
    ensures Unwound([], []) == []
  {
  }

  lemma CloseOne(c: char)
    requires IsOpen(c)
    ensures Run([Mate(c)], [c]) == Found(1)
  {
  }

  // ---- The forward scanner is the machine ----

  /** A stack without its pending angle brackets. */
  function Bare(st: string, angle: char): (r: string) {
    if st == [] then []
    else Bare(Popped(st), angle) + if TopIs(st, angle) then [] else [st[|st| - 1]]
  }

  function Erased(r: Scan, angle: char): (r': Scan) {
    if r.Pending? then Pending(Bare(r.stack, angle)) else r
  }

  /** At the bottom is the bracket the scan started from. */
  predicate Ready(st: string, angle: char) { st != [] && st[0] != angle }

  predicate Starts(line: string, i: nat, st: string) {
    Ready(st, '<') || (st == [] && i < |line| && IsOpen(line[i]))
  }

  lemma Pushed(st: string, c: char, angle: char)
    ensures Bare(st + [c], angle) == Bare(st, angle) + if c == angle then [] else [c]
    ensures Popped(st + [c]) == st
  {
    assert Popped(st + [c]) == st;
  }

  /** Dropping the pending angle brackets uncovers the top of the bare stack. */
  lemma {:induction false} Uncovered(st: string, angle: char)
    requires Ready(st, angle)
    ensures var t, b := WithoutAngles(st, angle), Bare(st, angle);
            && t != [] && b != [] && Bare(t, angle) == b && t[|t| - 1] == b[|b| - 1]
            && Bare(Popped(t), angle) == Popped(b) && (|t| == 1 <==> |b| == 1)
            && Ready(t, angle) && (|t| > 1 ==> Ready(Popped(t), angle))
    decreases |st|
  {
    if |st| > 1 {
      Uncovered(Popped(st), angle);
    }
  }

  /** Taking a pending angle bracket off leaves the bare stack. */
  lemma AngleOff(st: string, angle: char)
    requires Ready(st, angle) && TopIs(st, angle)
    ensures |st| > 1 && Ready(Popped(st), angle) && Bare(Popped(st), angle) == Bare(st, angle)
  {
  }

  lemma ForwardAngle(line: string, i: nat, st: string)
    requires i < |line| && Ready(st, '<') && IsAngle(line[i])
    ensures var r := ForwardChar(line, i, st);
            r.Pending? && Ready(r.stack, '<') && Bare(r.stack, '<') == Bare(st, '<')
  {
    hide EndsWithOperator, Bare;
    Pushed(st, '<', '<');
    if TopIs(st, '<') {
      AngleOff(st, '<');
    }
  }

  /** What one character does to the bare stack: angle brackets and semicolons do nothing. */
  lemma ForwardStep(line: string, i: nat, st: string)
    requires i < |line| && Starts(line, i, st)
    ensures var c, b, r := line[i], Bare(st, '<'), ForwardChar(line, i, st);
            && Erased(r, '<') == (if IsOpen(c) then Pending(b + [c])
                                  else if !IsClose(c) then Pending(b)
                                  else if !TopIs(b, Mate(c)) then Broken
                                  else if |b| == 1 then Found(i + 1) else Pending(Popped(b)))
            && (r.Pending? ==> Ready(r.stack, '<'))
  {
    if IsAngle(line[i]) {
      hide ForwardChar, Bare;
      ForwardAngle(line, i, st);
    } else {
      hide EndsWithOperator, WithoutAngles, Bare;
      Pushed(st, line[i], '<');
      if Ready(st, '<') {
        Uncovered(st, '<');
      }
    }
  }

  lemma {:induction false} ForwardIsRun(line: string, i: nat, st: string)
    requires i <= |line| && Starts(line, i, st)
    ensures var r := Forward(line, i, st);
            Erased(r, '<') == Moved(Run(line[i..], Bare(st, '<')), i) && (r.Pending? ==> Ready(r.stack, '<'))
    decreases |line| - i
  {
    if i < |line| {
      hide ForwardChar, Bare;
      assert line[i..][1..] == line[i + 1..];
      ForwardStep(line, i, st);
      var r := ForwardChar(line, i, st);
      if r.Pending? {
        ForwardIsRun(line, i + 1, r.stack);
      }
    }
  }

  // ---- Reading text from its end is reading its mirror image ----

  function Flip(s: string): (r: string)
    ensures |r| == |s| && forall k :: 0 <= k < |s| ==> r[k] == Mate(s[k])
  {
    seq(|s|, k requires 0 <= k < |s| => Mate(s[k]))
  }

  function Mirror(s: string): (r: string)
    ensures |r| == |s| && forall k :: 0 <= k < |s| ==> r[k] == Mate(s[|s| - 1 - k])
  {
    seq(|s|, k requires 0 <= k < |s| => Mate(s[|s| - 1 - k]))
  }

  lemma MirrorConcat(a: string, b: string)
    ensures Mirror(a + b) == Mirror(b) + Mirror(a)
  {
  }

  lemma MirrorTwice(s: string)
    ensures Mirror(Mirror(s)) == s
  {
  }

  lemma FlipTwice(s: string)
    ensures Flip(Flip(s)) == s
  {
  }

  /** The place a backward scan reports, from what the machine reports on the mirror image. */
  function Mirrored(r: Scan, i: nat): (r': Scan)
    requires r.Found? ==> r.pos <= i
  {
    match r
    case Found(k) => Found(i - k)
    case Broken => Broken
    case Pending(st) => Pending(Flip(st))
  }

  predicate Ends(line: string, i: int, st: string) {
    Ready(st, '>') || (st == [] && 0 <= i < |line| && IsClose(line[i]))
  }

  predicate IsBracket(c: char) { IsOpen(c) || IsClose(c) }

  lemma {:induction false} OperatorEnds(s: string)
    requires EndsWithOperator(s)
    ensures s != [] && !IsBracket(s[|s| - 1])
  {
    if s != [] && !IsSpace(s[|s| - 1]) {
      assert s[|s| - 1] == s[|s| - 8..][7];
    }
  }

  /** A backward scan steps over two characters only when neither is a bracket. */
  lemma SkipsNoBracket(line: string, i: nat)
    requires i < |line| && BackwardSkips(line, i)
    ensures i > 0 && !IsBracket(line[i]) && !IsBracket(line[i - 1])
  {
    if EndsWithOperator(line[..i]) {
      OperatorEnds(line[..i]);
    }
  }

  lemma BackwardAngle(line: string, i: nat, st: string)
    requires i < |line| && Ready(st, '>') && IsAngle(line[i])
    ensures var r := BackwardChar(line, i, st);
            && r.Pending? && Ready(r.stack, '>') && Bare(r.stack, '>') == Bare(st, '>')
            && (BackwardSkips(line, i) ==> r == Pending(st))
  {
    hide BackwardSkips, Bare;
    Pushed(st, '>', '>');
    if TopIs(st, '>') {
      AngleOff(st, '>');
    }
  }

  lemma BackwardStep(line: string, i: nat, st: string)
    requires i < |line| && Ends(line, i, st)
    ensures var c, b, r := line[i], Bare(st, '>'), BackwardChar(line, i, st);
            && Erased(r, '>') == (if IsClose(c) then Pending(b + [c])
                                  else if !IsOpen(c) then Pending(b)
                                  else if !TopIs(b, Mate(c)) then Broken
                                  else if |b| == 1 then Found(i) else Pending(Popped(b)))
            && (r.Pending? ==> Ready(r.stack, '>')) && (BackwardSkips(line, i) ==> r == Pending(st))
  {
    if IsAngle(line[i]) {
      hide BackwardChar, BackwardSkips, Bare;
      BackwardAngle(line, i, st);
    } else {
      hide EndsWithOperator, WithoutAngles, Bare;
      Pushed(st, line[i], '>');
      if Ready(st, '>') {
        Uncovered(st, '>');
      }
    }
  }

  lemma {:induction false} BackwardIsRun(line: string, i: int, st: string)
    requires -1 <= i < |line| && Ends(line, i, st)
    ensures var r := Backward(line, i, st);
            && Erased(r, '>') == Mirrored(Run(Mirror(line[..i + 1]), Flip(Bare(st, '>'))), i + 1)
            && (r.Pending? ==> Ready(r.stack, '>'))
    decreases i + 1
  {
    hide BackwardChar, BackwardSkips, Mirror, Flip, Bare;
    var b := Bare(st, '>');
    if i < 0 {
      FlipTwice(b);
      assert Mirror(line[..0]) == [];
    } else {
      BackwardStep(line, i, st);
      var r := BackwardChar(line, i, st);
      MirrorStep(line, i, b);
      if BackwardSkips(line, i) {
        SkipsNoBracket(line, i);
        MirrorStep(line, i - 1, b);
        BackwardIsRun(line, i - 2, st);
      } else if r.Pending? {
        BackwardIsRun(line, i - 1, r.stack);
      }
    }
  }

  /** The machine's first step on the mirror image. */
  lemma MirrorStep(line: string, i: nat, st: string)
    requires i < |line|
    ensures var c := line[i];
            Run(Mirror(line[..i + 1]), Flip(st)) ==
              if IsClose(c) then Later(Run(Mirror(line[..i]), Flip(st + [c])))
              else if !IsOpen(c) then Later(Run(Mirror(line[..i]), Flip(st)))
              else if !TopIs(st, Mate(c)) then Broken
              else if |st| == 1 then Found(1)
              else Later(Run(Mirror(line[..i]), Flip(Popped(st))))
  {
    var c := line[i];
    var s := Mirror(line[..i + 1]);
    assert s[0] == Mate(c) && s[1..] == Mirror(line[..i]);
    assert Flip(st + [c]) == Flip(st) + [Mate(c)];
    if st != [] {
      assert Popped(Flip(st)) == Flip(Popped(st));
    }
  }

  function Append(a: Nested, b: Nested): (d: Nested) {
    match a
    case Empty => b
    case Other(c, rest) => Other(c, Append(rest, b))
    case Pair(open, inner, rest) => Pair(open, inner, Append(rest, b))
  }

  lemma {:induction false} AppendYield(a: Nested, b: Nested)
    requires Proper(a) && Proper(b)
    ensures Proper(Append(a, b)) && Yield(Append(a, b)) == Yield(a) + Yield(b)
  {
    match a
    case Empty =>
    case Other(c, rest) => AppendYield(rest, b);
    case Pair(open, inner, rest) => AppendYield(rest, b);
  }

  function MirrorTree(d: Nested): (m: Nested) {
    match d
    case Empty => Empty
    case Other(c, rest) => Append(MirrorTree(rest), Other(c, Empty))
    case Pair(open, inner, rest) => Append(MirrorTree(rest), Pair(open, MirrorTree(inner), Empty))
  }

  lemma {:induction false} MirrorYield(d: Nested)
    requires Proper(d)
    ensures Proper(MirrorTree(d)) && Yield(MirrorTree(d)) == Mirror(Yield(d))
  {
    hide Append;
    match d
    case Empty =>
    case Other(c, rest) =>
      MirrorYield(rest);
      AppendYield(MirrorTree(rest), Other(c, Empty));
      MirrorConcat([c], Yield(rest));
      assert Yield(Other(c, Empty)) == [c] == Mirror([c]);
    case Pair(open, inner, rest) =>
      MirrorYield(inner);
      MirrorYield(rest);
      AppendYield(MirrorTree(rest), Pair(open, MirrorTree(inner), Empty));
      MirrorPair(open, inner, rest);
  }

  lemma MirrorPair(c: char, inner: Nested, rest: Nested)
    requires IsOpen(c)
    ensures Mirror(Yield(Pair(c, inner, rest))) ==
            Mirror(Yield(rest)) + ([c] + Mirror(Yield(inner)) + [Mate(c)] + [])
  {
    YieldPair(c, inner, rest);
    hide Yield;
    var a, b := Yield(inner), Yield(rest);
    assert Mirror([c]) == [Mate(c)] && Mirror([Mate(c)]) == [c];
    MirrorConcat([c], a);
    MirrorConcat([c] + a, [Mate(c)]);
    MirrorConcat([c] + a + [Mate(c)], b);
  }

  lemma NestedMirror(s: string)
    ensures IsNested(s) <==> IsNested(Mirror(s))
  {
    MirrorTwice(s);
    MirrorNested(s);
    MirrorNested(Mirror(s));
  }

  lemma MirrorNested(s: string)
    ensures IsNested(s) ==> IsNested(Mirror(s))
  {
    hide Yield, Proper;
    if IsNested(s) {
      var d :| Proper(d) && s == Yield(d);
      MirrorYield(d);
    }
  }

  lemma BracketedMirror(s: string)
    requires s != []
    ensures Bracketed(s) <==> Bracketed(Mirror(s))
  {
    var n := |s|;
    if n >= 2 {
      assert Mirror(s)[1..n - 1] == Mirror(s[1..n - 1]);
      NestedMirror(s[1..n - 1]);
    }
  }

  // ---- Many lines ----

  lemma {:induction false} ClosingInside(lines: seq<string>, n: nat, i: nat, st: string)
    requires n < |lines| && i <= |lines[n]|
    ensures match Closing(lines, n, i, st)
            case At(m, e) => n <= m < |lines| && 0 < e <= |lines[m]| && (n == m ==> i < e)
            case Nowhere => true
    decreases |lines| - n
  {
    var r := Forward(lines[n], i, st);
    if r.Pending? && r.stack != [] && n + 1 < |lines| {
      ClosingInside(lines, n + 1, 0, r.stack);
    }
  }

  lemma {:induction false} OpeningInside(lines: seq<string>, n: nat, i: int, st: string)
    requires n < |lines| && -1 <= i < |lines[n]|
    ensures match Opening(lines, n, i, st)
            case At(m, b) => m <= n && b < |lines[m]| && (n == m ==> b <= i)
            case Nowhere => true
    decreases n
  {
    var r := Backward(lines[n], i, st);
    if r.Pending? && r.stack != [] && n > 0 {
      OpeningInside(lines, n - 1, |lines[n - 1]| - 1, r.stack);
    }
  }

  /** The machine stops within a if and only if it stops there on a alone. */
  lemma RunPrefix(a: string, b: string, st: string)
    ensures Run(a + b, st) == Found(|a|) <==> Run(a, st) == Found(|a|)
  {
    RunConcat(a, b, st);
  }

  lemma {:induction false} ClosingIsRun(lines: seq<string>, n: nat, i: nat, st: string, m: nat, e: nat)
    requires n <= m < |lines| && i <= |lines[n]| && 0 < e <= |lines[m]| && (n == m ==> i < e)
    requires Starts(lines[n], i, st)
    ensures Closing(lines, n, i, st) == At(m, e) <==>
            Run(Span(lines, n, i, m, e), Bare(st, '<')) == Found(|Span(lines, n, i, m, e)|)
    decreases m - n
  {
    hide Forward, Run, Bare;
    ForwardIsRun(lines[n], i, st);
    var r, bare := Forward(lines[n], i, st), Bare(st, '<');
    if n == m {
      var a, b := lines[n][i..e], lines[n][e..];
      assert lines[n][i..] == a + b;
      RunPrefix(a, b, bare);
      if r.Pending? && r.stack != [] && n + 1 < |lines| {
        ClosingInside(lines, n + 1, 0, r.stack);
      }
    } else {
      var tail := Span(lines, n + 1, 0, m, e);
      if n + 1 < m {
        SpanEnd(lines, n + 1, 0, m, e);
      }
      assert |tail| >= e;
      RunConcat(lines[n][i..], tail, bare);
      if r.Pending? {
        ClosingIsRun(lines, n + 1, 0, r.stack, m, e);
      }
    }
  }

  lemma {:induction false} SpanEnd(lines: seq<string>, n: nat, p: nat, m: nat, q: nat)
    requires n < m < |lines| && p <= |lines[n]| && q <= |lines[m]|
    ensures Span(lines, n, p, m, q) == Span(lines, n, p, m - 1, |lines[m - 1]|) + lines[m][..q]
    decreases m - n
  {
    assert lines[m][0..q] == lines[m][..q];
    if n + 1 < m {
      SpanEnd(lines, n + 1, 0, m, q);
      Regroup2(lines[n][p..], Span(lines, n + 1, 0, m - 1, |lines[m - 1]|), lines[m][..q]);
    }
  }

  lemma Regroup2(a: string, b: string, c: string)
    ensures a + (b + c) == (a + b) + c
  {
  }

  lemma {:induction false} OpeningIsRun(lines: seq<string>, m: nat, j: int, st: string, n: nat, b: nat)
    requires n <= m < |lines| && -1 <= j < |lines[m]| && b < |lines[n]| && (n == m ==> b <= j)
    requires Ends(lines[m], j, st)
    ensures Opening(lines, m, j, st) == At(n, b) <==>
            Run(Mirror(Span(lines, n, b, m, j + 1)), Flip(Bare(st, '>'))) == Found(|Span(lines, n, b, m, j + 1)|)
    decreases m - n
  {
    hide Backward, Run, Bare;
    BackwardIsRun(lines[m], j, st);
    var r, bare := Backward(lines[m], j, st), Flip(Bare(st, '>'));
    var line := lines[m][..j + 1];
    if n == m {
      assert line == line[..b] + line[b..];
      MirrorConcat(line[..b], line[b..]);
      assert line[b..] == Span(lines, n, b, m, j + 1);
      RunPrefix(Mirror(line[b..]), Mirror(line[..b]), bare);
      if r.Pending? && r.stack != [] && n > 0 {
        OpeningInside(lines, n - 1, |lines[n - 1]| - 1, r.stack);
      }
    } else {
      var head := Span(lines, n, b, m - 1, |lines[m - 1]|);
      SpanEnd(lines, n, b, m, j + 1);
      MirrorConcat(head, line);
      RunConcat(Mirror(line), Mirror(head), bare);
      if r.Pending? {
        FlipTwice(Run(Mirror(line), bare).stack);
        OpeningIsRun(lines, m - 1, |lines[m - 1]| - 1, r.stack, n, b);
      }
    }
  }

  /** What a match spans: its opening bracket, nested text and its closing bracket. */
  lemma ClosedByIsBracketed(lines: seq<string>, n: nat, p: nat, m: nat, q: nat)
    requires Somewhere(lines, n, p) && Somewhere(lines, m, q) && (n < m || (n == m && p < q))
    ensures ClosedBy(lines, n, p, m, q) <==> Bracketed(Span(lines, n, p, m, q + 1))
    ensures var s := Span(lines, n, p, m, q + 1); s != [] && s[0] == lines[n][p] && s[|s| - 1] == lines[m][q]
  {
    hide IsNested, Mate, Span;
    var s := Span(lines, n, p, m, q + 1);
    var inner := Span(lines, n, p + 1, m, q);
    SpanBothEnds(lines, n, p, m, q);
    assert s[1..|s| - 1] == inner;
  }

  lemma SpanBothEnds(lines: seq<string>, n: nat, p: nat, m: nat, q: nat)
    requires Somewhere(lines, n, p) && Somewhere(lines, m, q) && (n < m || (n == m && p < q))
    ensures Span(lines, n, p, m, q + 1) == [lines[n][p]] + Span(lines, n, p + 1, m, q) + [lines[m][q]]
  {
    SpanFront(lines, n, p, m, q + 1);
    SpanBack(lines, n, p + 1, m, q);
    hide Span;
    Regroup2([lines[n][p]], Span(lines, n, p + 1, m, q), [lines[m][q]]);
  }

  lemma SpanBack(lines: seq<string>, n: nat, p: nat, m: nat, q: nat)
    requires n <= m < |lines| && p <= |lines[n]| && q < |lines[m]| && (n == m ==> p <= q)
    ensures Span(lines, n, p, m, q + 1) == Span(lines, n, p, m, q) + [lines[m][q]]
  {
    if n < m {
      SpanEnd(lines, n, p, m, q + 1);
      SpanEnd(lines, n, p, m, q);
      hide Span;
      assert lines[m][..q + 1] == lines[m][..q] + [lines[m][q]];
      Regroup2(Span(lines, n, p, m - 1, |lines[m - 1]|), lines[m][..q], [lines[m][q]]);
    }
  }

  lemma SpanFront(lines: seq<string>, n: nat, p: nat, m: nat, q: nat)
    requires n <= m < |lines| && p < |lines[n]| && q <= |lines[m]| && (n == m ==> p < q)
    ensures Span(lines, n, p, m, q) == [lines[n][p]] + Span(lines, n, p + 1, m, q)
  {
  }

  /**
    The two scanners agree with the grammar and with each other: the forward scan from a bracket
    ends just past a position, and the backward scan from that position ends at the bracket, exactly
    when the two are a properly nested pair; on any lines, whatever angle brackets and operators they hold.
    The scans from an angle bracket are in BracketTemplates.
  */
  lemma ScannersFindTheMatch(lines: seq<string>, n: nat, p: nat, m: nat, q: nat)
    requires Somewhere(lines, n, p) && Somewhere(lines, m, q)
    ensures lines[n][p] != '<' ==> (Close(lines, n, p) == At(m, q + 1) <==> ClosedBy(lines, n, p, m, q))
    ensures lines[m][q] != '>' ==> (Open(lines, m, q) == At(n, p) <==> ClosedBy(lines, n, p, m, q))
  {
    hide Closing, Opening, ClosedBy, Bracketed, Run, Mate;
    if n < m || (n == m && p < q) {
      var s := Span(lines, n, p, m, q + 1);
      ClosedByIsBracketed(lines, n, p, m, q);
      if IsOpen(lines[n][p]) {
        RunIffBracketed(s);
        ClosingIsRun(lines, n, p, [], m, q + 1);
      } else {
        assert !Bracketed(s) by { NotBracketed(s); }
      }
      if IsClose(lines[m][q]) {
        BracketedMirror(s);
        MirrorOpens(s);
        RunIffBracketed(Mirror(s));
        OpeningIsRun(lines, m, q, [], n, p);
      } else {
        assert !Bracketed(s) by { NotBracketed(s); }
      }
    } else {
      ApartElsewhere(lines, n, p, m, q);
    }
  }

  lemma NotBracketed(s: string)
    requires s != [] && (!IsOpen(s[0]) || !IsClose(s[|s| - 1]))
    ensures !Bracketed(s)
  {
  }

  lemma MirrorOpens(s: string)
    requires s != [] && IsClose(s[|s| - 1])
    ensures IsOpen(Mirror(s)[0])
  {
  }

  lemma ApartElsewhere(lines: seq<string>, n: nat, p: nat, m: nat, q: nat)
    requires Somewhere(lines, n, p) && Somewhere(lines, m, q) && !(n < m || (n == m && p < q))
    ensures !ClosedBy(lines, n, p, m, q)
    ensures (lines[n][p] != '<' ==> Close(lines, n, p) != At(m, q + 1))
            && (lines[m][q] != '>' ==> Open(lines, m, q) != At(n, p))
  {
    ClosingInside(lines, n, p, []);
    OpeningInside(lines, m, q, []);
    if n == m && p == q {
      AnswersElsewhere(lines, n, p);
    }
  }

  lemma AnswersElsewhere(lines: seq<string>, n: nat, p: nat)
    requires Somewhere(lines, n, p)
    ensures (lines[n][p] != '<' ==> Close(lines, n, p) != At(n, p + 1))
            && (lines[n][p] != '>' ==> Open(lines, n, p) != At(n, p))
  {
    var c := lines[n][p];
    assert [] + [c] == [c];
    if IsOpen(c) {
      var r := Forward(lines[n], p, []);
      assert r == Forward(lines[n], p + 1, [c]);
      if r.Pending? && n + 1 < |lines| {
        ClosingInside(lines, n + 1, 0, r.stack);
      }
    } else if IsClose(c) {
      var r := Backward(lines[n], p, []);
      assert r == Backward(lines[n], p - 1, [c]);
      if r.Pending? && n > 0 {
        OpeningInside(lines, n - 1, |lines[n - 1]| - 1, r.stack);
      }
    }
  }

  /** The scanners give up only where no match exists. */
  lemma ScannersSucceedIff(lines: seq<string>, n: nat, p: nat)
    requires Somewhere(lines, n, p) && !IsAngle(lines[n][p])
    ensures Close(lines, n, p).At? <==> exists m: nat, q: nat :: ClosedBy(lines, n, p, m, q)
    ensures Open(lines, n, p).At? <==> exists m: nat, q: nat :: ClosedBy(lines, m, q, n, p)
  {
    hide ClosedBy, Closing, Opening;
    forall m: nat, q: nat | Somewhere(lines, m, q)
      ensures Close(lines, n, p) == At(m, q + 1) <==> ClosedBy(lines, n, p, m, q)
    {
      ScannersFindTheMatch(lines, n, p, m, q);
    }
    forall m: nat, q: nat | Somewhere(lines, m, q)
      ensures Open(lines, n, p) == At(m, q) <==> ClosedBy(lines, m, q, n, p)
    {
      ScannersFindTheMatch(lines, m, q, n, p);
    }
    forall m: nat, q: nat ensures ClosedBy(lines, n, p, m, q) ==> Somewhere(lines, m, q) {
      ClosedByPlaces(lines, n, p, m, q);
    }
    forall m: nat, q: nat ensures ClosedBy(lines, m, q, n, p) ==> Somewhere(lines, m, q) {
      ClosedByPlaces(lines, m, q, n, p);
    }
    ClosingInside(lines, n, p, []);
    OpeningInside(lines, n, p, []);
    if Close(lines, n, p).At? {
      var at := Close(lines, n, p);
      assert ClosedBy(lines, n, p, at.line, at.col - 1);
    }
    if Open(lines, n, p).At? {
      var at := Open(lines, n, p);
      assert ClosedBy(lines, at.line, at.col, n, p);
    }
  }

  lemma ClosedByPlaces(lines: seq<string>, n: nat, p: nat, m: nat, q: nat)
    ensures ClosedBy(lines, n, p, m, q) ==> Somewhere(lines, n, p) && Somewhere(lines, m, q)
  {
  }
}
