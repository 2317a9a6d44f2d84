/** The preprocessor-aware nesting stack of build_tools/lint/cpplint.py. */
module Nesting {
  import opened Brackets

  datatype Directive = If | Else | Endif | Code

  function AfterSpaces(s: string): (r: string) {
    if s != [] && IsSpace(s[0]) then AfterSpaces(s[1..]) else s
  }

  function FirstWord(s: string): (w: string) {
    if s != [] && IsWord(s[0]) then [s[0]] + FirstWord(s[1..]) else []
  }

  /** Which conditional directive a line holds, if any. */
  function Classify(line: string): (d: Directive) {
    var s := AfterSpaces(line);
    if s == [] || s[0] != '#' then Code
    else
      var w := FirstWord(AfterSpaces(s[1..]));
      if w == "if" || w == "ifdef" || w == "ifndef" then If
      else if w == "else" || w == "elif" then Else
      else if w == "endif" then Endif
      else Code
  }

  // ---- What the line patterns match ----

  predicate Blank(s: string) { forall c <- s :: IsSpace(c) }

  predicate IsName(s: string) { forall c <- s :: IsWord(c) }

  /** A word that ends here: at the end of the line, or before a character no word holds. */
  predicate Boundary(s: string) { s == [] || !IsWord(s[0]) }

  function DirectiveLine(a: string, b: string, w: string, tail: string): (line: string) {
    a + "#" + b + w + tail
  }

  /** Only blanks before the number sign, only blanks between it and the word, which ends there. */
  ghost predicate Holds(line: string, w: string) {
    exists a: string, b: string, tail: string ::
      Blank(a) && Blank(b) && Boundary(tail) && line == DirectiveLine(a, b, w, tail)
  }

  lemma {:induction false} SpacesDrop(a: string, s: string)
    requires Blank(a) && (s == [] || !IsSpace(s[0]))
    ensures AfterSpaces(a + s) == s
  {
    if a == [] {
      assert a + s == s;
    } else {
      assert a[0] in a && (a + s)[1..] == a[1..] + s;
      SpacesDrop(a[1..], s);
    }
  }

  lemma {:induction false} SpacesSplit(s: string) returns (n: nat)
    ensures n <= |s| && AfterSpaces(s) == s[n..] && Blank(s[..n])
  {
    if s != [] && IsSpace(s[0]) {
      var m := SpacesSplit(s[1..]);
      n := m + 1;
      assert s[1..][m..] == s[n..] && s[..n] == [s[0]] + s[1..][..m];
    } else {
      n := 0;
      assert s[0..] == s;
    }
  }

  lemma {:induction false} WordStops(w: string, tail: string)
    requires IsName(w) && Boundary(tail)
    ensures FirstWord(w + tail) == w
  {
    if w == [] {
      assert w + tail == tail;
    } else {
      assert w[0] in w && (w + tail)[1..] == w[1..] + tail;
      WordStops(w[1..], tail);
    }
  }

  lemma {:induction false} WordSplit(s: string)
    ensures var n := |FirstWord(s)|;
            n <= |s| && s[..n] == FirstWord(s) && Boundary(s[n..])
  {
    if s != [] && IsWord(s[0]) {
      WordSplit(s[1..]);
      assert s == [s[0]] + s[1..];
      assert s[|FirstWord(s)|..] == s[1..][|FirstWord(s[1..])|..];
    }
  }

  lemma HashFirst(a: string, b: string, w: string, tail: string)
    requires Blank(a) && Blank(b) && IsName(w) && w != [] && Boundary(tail)
    ensures var s := AfterSpaces(DirectiveLine(a, b, w, tail));
            s != [] && s[0] == '#' && FirstWord(AfterSpaces(s[1..])) == w
  {
    SpacesDrop(a, "#" + b + w + tail);
    assert DirectiveLine(a, b, w, tail) == a + ("#" + b + w + tail);
    assert ("#" + b + w + tail)[1..] == b + (w + tail);
    assert w[0] in w;
    SpacesDrop(b, w + tail);
    WordStops(w, tail);
  }

  /** The word a line would be classified by. */
  predicate Leads(line: string, w: string) {
    var s := AfterSpaces(line);
    s != [] && s[0] == '#' && FirstWord(AfterSpaces(s[1..])) == w
  }

  lemma LeadsHolds(line: string, w: string)
    requires Leads(line, w)
    ensures Holds(line, w)
  {
    hide AfterSpaces, FirstWord, Blank, Boundary;
    var s := AfterSpaces(line);
    var k := SpacesSplit(line);
    var n := SpacesSplit(s[1..]);
    WordSplit(s[1..][n..]);
    Assembled(line[..k], s, s[1..][..n], s[1..][n..], w);
    assert line == line[..k] + s;
  }

  lemma Assembled(a: string, s: string, b: string, t: string, w: string)
    requires s != [] && s[0] == '#' && s[1..] == b + t && |w| <= |t| && t[..|w|] == w
    ensures a + s == DirectiveLine(a, b, w, t[|w|..])
  {
    assert s == "#" + (b + t) && t == w + t[|w|..];
  }

  /** A name follows the number sign exactly when it is the word the line is classified by. */
  lemma HoldsIff(line: string, w: string)
    requires IsName(w) && w != []
    ensures Holds(line, w) <==> Leads(line, w)
  {
    hide Blank, Boundary, IsName, AfterSpaces, FirstWord, DirectiveLine;
    if Holds(line, w) {
      var a: string, b: string, tail: string :|
        Blank(a) && Blank(b) && Boundary(tail) && line == DirectiveLine(a, b, w, tail);
      HashFirst(a, b, w, tail);
    }
    if Leads(line, w) {
      LeadsHolds(line, w);
    }
  }

  /** A line opens, divides or closes a conditional exactly when it holds one of these words. */
  lemma ClassifyMeans(line: string)
    ensures Classify(line) == If <==> Holds(line, "if") || Holds(line, "ifdef") || Holds(line, "ifndef")
    ensures Classify(line) == Else <==> Holds(line, "else") || Holds(line, "elif")
    ensures Classify(line) == Endif <==> Holds(line, "endif")
  {
    hide AfterSpaces, FirstWord, Holds;
    HoldsIff(line, "if");
    HoldsIff(line, "ifdef");
    HoldsIff(line, "ifndef");
    HoldsIff(line, "else");
    HoldsIff(line, "elif");
    HoldsIff(line, "endif");
  }

  /** A checkpoint taken at an #if, completed at its first #else or #elif. */
  datatype Info<B> = Info(beforeIf: seq<B>, beforeElse: seq<B>, seenElse: bool)

  datatype State<B> = State(stack: seq<B>, pp: seq<Info<B>>)

  /** A line of a file and its number there. */
  datatype Src = Src(number: nat, text: string)

  /**
    What the rest of Update does to the brace stack on one line.  The number lets it label blocks
    and look ahead in the file, which is fixed; it never looks at the checkpoints.
  */
  type Effect<!B> = (seq<B>, Src) -> seq<B>

  function Checkpoint<B>(s: State<B>, line: Src): (s': State<B>) {
    var top := |s.pp| - 1;
    match Classify(line.text)
    case If => s.(pp := s.pp + [Info(s.stack, [], false)])
    case Else =>
      if s.pp == [] then s
      else if s.pp[top].seenElse then s.(stack := s.pp[top].beforeIf)
      else State(s.pp[top].beforeIf, s.pp[top := s.pp[top].(seenElse := true, beforeElse := s.stack)])
    case Endif =>
      if s.pp == [] then s
      else State(if s.pp[top].seenElse then s.pp[top].beforeElse else s.stack, s.pp[..top])
    case Code => s
  }

  function Step<B>(s: State<B>, line: Src, effect: Effect<B>): (s': State<B>) {
    var t := Checkpoint(s, line);
    t.(stack := effect(t.stack, line))
  }

  function Exec<B>(s: State<B>, lines: seq<Src>, effect: Effect<B>): (s': State<B>)
    decreases |lines|
  {
    if lines == [] then s else Exec(Step(s, lines[0], effect), lines[1..], effect)
  }

  class NestingState<B> {
    var stack: seq<B>
    var ppStack: seq<Info<B>>

    constructor ()
      ensures Value() == State([], [])
    {
      stack, ppStack := [], [];
    }

    function Value(): (s: State<B>)
      reads this
    {
      State(stack, ppStack)
    }

    method UpdatePreprocessor(line: Src)
      modifies this
      ensures Value() == Checkpoint(old(Value()), line)
    {
      var directive := Classify(line.text);
      var top := |ppStack| - 1;
      if directive == If {
        ppStack := ppStack + [Info(stack, [], false)];
      } else if directive == Else {
        if ppStack != [] {
          if !ppStack[top].seenElse {
            ppStack := ppStack[top := ppStack[top].(seenElse := true, beforeElse := stack)];
          }
          stack := ppStack[top].beforeIf;
        }
      } else if directive == Endif {
        if ppStack != [] {
          if ppStack[top].seenElse {
            stack := ppStack[top].beforeElse;
          }
          ppStack := ppStack[..top];
        }
      }
    }

    method Update(line: Src, effect: Effect<B>)
      modifies this
      ensures Value() == Step(old(Value()), line, effect)
    {
      UpdatePreprocessor(line);
      stack := effect(stack, line);
    }

    method UpdateAll(lines: seq<Src>, effect: Effect<B>)
      modifies this
      ensures Value() == Exec(old(Value()), lines, effect)
    {
      for n := 0 to |lines|
        invariant Exec(Value(), lines[n..], effect) == Exec(old(Value()), lines, effect)
      {
        Update(lines[n], effect);
        assert lines[n..][1..] == lines[n + 1..];
      }
    }
  }

  // ---- Well-nested files ----

  datatype Doc =
    | End
    | Line(line: Src, rest: Doc)
    | Cond(opener: Src, first: Doc, others: Branches, closer: Src, rest: Doc)

  /** The #else and #elif branches after the first. */
  datatype Branches = NoMore | Branch(heading: Src, body: Doc, more: Branches)

  predicate WellNested(d: Doc) {
    match d
    case End => true
    case Line(line, rest) => Classify(line.text) == Code && WellNested(rest)
    case Cond(opener, first, others, closer, rest) =>
      && Classify(opener.text) == If && WellNested(first) && WellNestedBranches(others)
      && Classify(closer.text) == Endif && WellNested(rest)
  }

  predicate WellNestedBranches(bs: Branches) {
    match bs
    case NoMore => true
    case Branch(heading, body, more) => Classify(heading.text) == Else && WellNested(body) && WellNestedBranches(more)
  }

  function Text(d: Doc): (lines: seq<Src>) {
    match d
    case End => []
    case Line(line, rest) => [line] + Text(rest)
    case Cond(opener, first, others, closer, rest) =>
      [opener] + (Text(first) + (BranchText(others) + ([closer] + Text(rest))))
  }

  function BranchText(bs: Branches): (lines: seq<Src>) {
    match bs
    case NoMore => []
    case Branch(heading, body, more) => [heading] + (Text(body) + BranchText(more))
  }

  /** The lines that survive when every condition is taken to be true. */
  function Taken(d: Doc): (lines: seq<Src>) {
    match d
    case End => []
    case Line(line, rest) => [line] + Taken(rest)
    case Cond(opener, first, others, closer, rest) => [opener] + (Taken(first) + ([closer] + Taken(rest)))
  }

  /** The brace stack after some lines, with no preprocessor at all. */
  function Plain<B>(st: seq<B>, lines: seq<Src>, effect: Effect<B>): (st': seq<B>)
    decreases |lines|
  {
    if lines == [] then st else Plain(effect(st, lines[0]), lines[1..], effect)
  }

  lemma {:induction false} ExecConcat<B>(s: State<B>, a: seq<Src>, b: seq<Src>, effect: Effect<B>)
    ensures Exec(s, a + b, effect) == Exec(Exec(s, a, effect), b, effect)
    decreases |a|
  {
    if a == [] {
      assert a + b == b;
    } else {
      assert (a + b)[0] == a[0] && (a + b)[1..] == a[1..] + b;
      ExecConcat(Step(s, a[0], effect), a[1..], b, effect);
    }
  }

  lemma {:induction false} PlainConcat<B>(st: seq<B>, a: seq<Src>, b: seq<Src>, effect: Effect<B>)
    ensures Plain(st, a + b, effect) == Plain(Plain(st, a, effect), b, effect)
    decreases |a|
  {
    if a == [] {
      assert a + b == b;
    } else {
      assert (a + b)[0] == a[0] && (a + b)[1..] == a[1..] + b;
      PlainConcat(effect(st, a[0]), a[1..], b, effect);
    }
  }

  lemma ExecFirst<B>(s: State<B>, line: Src, lines: seq<Src>, effect: Effect<B>)
    ensures Exec(s, [line] + lines, effect) == Exec(Step(s, line, effect), lines, effect)
  {
    assert ([line] + lines)[1..] == lines;
  }

  lemma PlainFirst<B>(st: seq<B>, line: Src, lines: seq<Src>, effect: Effect<B>)
    ensures Plain(st, [line] + lines, effect) == Plain(effect(st, line), lines, effect)
  {
    assert ([line] + lines)[1..] == lines;
  }

  /**
    On every well-nested file, from every state, the checkpoints end as they began and the brace
    stack is what the lines of the first branches leave, whatever a line does to the stack.
  */
  lemma {:induction false} FirstBranchesDecide<B>(d: Doc, s: State<B>, effect: Effect<B>)
    requires WellNested(d)
    ensures Exec(s, Text(d), effect) == State(Plain(s.stack, Taken(d), effect), s.pp)
    decreases d
  {
    hide Classify, Exec, Plain;
    match d
    case End =>
      NoLines(s, effect);
    case Line(line, rest) =>
      ExecFirst(s, line, Text(rest), effect);
      PlainFirst(s.stack, line, Taken(rest), effect);
      FirstBranchesDecide(rest, Step(s, line, effect), effect);
    case Cond(opener, first, others, closer, rest) =>
      var s1 := Step(s, opener, effect);
      FirstBranchesDecide(first, s1, effect);
      var s2 := Exec(s1, Text(first), effect);
      OtherBranchesVanish(others, s2, effect);
      var s3 := Exec(s2, BranchText(others), effect);
      var s4 := Step(s3, closer, effect);
      FirstBranchesDecide(rest, s4, effect);
      ExecFirst(s, opener, Text(first) + (BranchText(others) + ([closer] + Text(rest))), effect);
      ExecConcat(s1, Text(first), BranchText(others) + ([closer] + Text(rest)), effect);
      ExecConcat(s2, BranchText(others), [closer] + Text(rest), effect);
      ExecFirst(s3, closer, Text(rest), effect);
      PlainFirst(s.stack, opener, Taken(first) + ([closer] + Taken(rest)), effect);
      PlainConcat(s1.stack, Taken(first), [closer] + Taken(rest), effect);
      PlainFirst(s2.stack, closer, Taken(rest), effect);
      assert s4 == State(effect(s2.stack, closer), s.pp);
  }

  lemma NoLines<B>(s: State<B>, effect: Effect<B>)
    ensures Exec(s, [], effect) == s && Plain(s.stack, [], effect) == s.stack
  {
  }

  /** Later branches leave one trace: the checkpoint now holds the stack the first branch left. */
  function Closed<B>(s: State<B>, bs: Branches): (pp: seq<Info<B>>)
    requires s.pp != []
  {
    var top := |s.pp| - 1;
    if bs.NoMore? || s.pp[top].seenElse then s.pp
    else s.pp[top := s.pp[top].(seenElse := true, beforeElse := s.stack)]
  }

  lemma {:induction false} OtherBranchesVanish<B>(bs: Branches, s: State<B>, effect: Effect<B>)
    requires WellNestedBranches(bs) && s.pp != []
    ensures var s' := Exec(s, BranchText(bs), effect);
            s'.pp == Closed(s, bs) && (bs.NoMore? ==> s'.stack == s.stack)
    decreases bs
  {
    hide Classify, Exec, Plain;
    match bs
    case NoMore =>
      NoLines(s, effect);
    case Branch(heading, body, more) =>
      var s1 := Step(s, heading, effect);
      FirstBranchesDecide(body, s1, effect);
      var s2 := Exec(s1, Text(body), effect);
      OtherBranchesVanish(more, s2, effect);
      ExecFirst(s, heading, Text(body) + BranchText(more), effect);
      ExecConcat(s1, Text(body), BranchText(more), effect);
  }

  /** An #else or #endif without an #if is a line like any other. */
  lemma {:induction false} StrayDirectives<B>(st: seq<B>, lines: seq<Src>, effect: Effect<B>)
    requires forall line <- lines :: Classify(line.text) != If
    ensures Exec(State(st, []), lines, effect) == State(Plain(st, lines, effect), [])
    decreases |lines|
  {
    hide Classify;
    if lines != [] {
      assert lines[0] in lines;
      StrayDirectives(effect(st, lines[0]), lines[1..], effect);
    }
  }
}
