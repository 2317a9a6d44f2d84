/** The bracket scanners of build_tools/lint/cpplint.py, with their template-argument heuristics. */
module Brackets {

  /** What a scanner knows at the end of a line. */
  datatype Scan = Found(pos: nat) | Broken | Pending(stack: string)

  predicate IsOpen(c: char) { c == '(' || c == '[' || c == '{' }

  predicate IsClose(c: char) { c == ')' || c == ']' || c == '}' }

  predicate IsAngle(c: char) { c == '<' || c == '>' }

  function Mate(c: char): (m: char) {
    match c
    case '(' => ')' case ')' => '('
    case '[' => ']' case ']' => '['
    case '{' => '}' case '}' => '{'
    case _ => c
  }

  predicate IsSpace(c: char) {
    c == ' ' || c == '\t' || c == '\n' || c == '\r' || c as int == 11 || c as int == 12
  }

  predicate IsWord(c: char) {
    'a' <= c <= 'z' || 'A' <= c <= 'Z' || '0' <= c <= '9' || c == '_'
  }

  /** The keyword operator, as a whole word, with nothing but spaces after it. */
  predicate EndsWithOperator(s: string) {
    if s != [] && IsSpace(s[|s| - 1]) then EndsWithOperator(s[..|s| - 1])
    else
      var n := |s| - 8;
      n >= 0 && s[n..] == "operator" && (n == 0 || !IsWord(s[n - 1]))
  }

  predicate TopIs(st: string, c: char) { st != [] && st[|st| - 1] == c }

  function Popped(st: string): (r: string)
    requires st != []
  {
    st[..|st| - 1]
  }

  /** Drops the pending angle brackets on top: they must have been operators. */
  function WithoutAngles(st: string, angle: char): (r: string)
    ensures r <= st && !TopIs(r, angle)
    ensures forall k :: |r| <= k < |st| ==> st[k] == angle
  {
    if TopIs(st, angle) then WithoutAngles(Popped(st), angle) else st
  }

  // ---- One character of each scanner ----

  /** Result of one character: an answer, or the stack to go on with. */
  function ForwardChar(line: string, i: nat, st: string): (r: Scan)
    requires i < |line|
  {
    var c := line[i];
    if IsOpen(c) then Pending(st + [c])
    else if c == '<' then
      if i > 0 && line[i - 1] == '<' then
        if TopIs(st, '<') then (if |st| == 1 then Broken else Pending(Popped(st))) else Pending(st)
      else if i > 0 && EndsWithOperator(line[..i]) then Pending(st)
      else Pending(st + ['<'])
    else if IsClose(c) then
      var st' := WithoutAngles(st, '<');
      if !TopIs(st', Mate(c)) then Broken
      else if |st'| == 1 then Found(i + 1) else Pending(Popped(st'))
    else if c == '>' then
      if i > 0 && (line[i - 1] == '-' || EndsWithOperator(line[..i - 1])) then Pending(st)
      else if TopIs(st, '<') then (if |st| == 1 then Found(i + 1) else Pending(Popped(st)))
      else Pending(st)
    else if c == ';' then
      var st' := WithoutAngles(st, '<');
      if st' == [] then Broken else Pending(st')
    else Pending(st)
  }

  /** An operator spelled with an angle bracket that a backward scan steps over, with the character before it. */
  predicate BackwardSkips(line: string, i: nat)
    requires i < |line|
  {
    && i > 0
    && if line[i] == '>' then
         || line[i - 1] == '-'
         || (IsSpace(line[i - 1]) && i + 2 < |line| && line[i + 1] == '=' && IsSpace(line[i + 2]))
         || EndsWithOperator(line[..i])
       else
         line[i] == '<' && line[i - 1] == '<'
  }

  function BackwardChar(line: string, i: nat, st: string): (r: Scan)
    requires i < |line|
  {
    var c := line[i];
    if IsClose(c) then Pending(st + [c])
    else if BackwardSkips(line, i) then Pending(st)
    else if c == '>' then Pending(st + ['>'])
    else if c == '<' then
      if TopIs(st, '>') then (if |st| == 1 then Found(i) else Pending(Popped(st))) else Pending(st)
    else if IsOpen(c) then
      var st' := WithoutAngles(st, '>');
      if !TopIs(st', Mate(c)) then Broken
      else if |st'| == 1 then Found(i) else Pending(Popped(st'))
    else if c == ';' then
      var st' := WithoutAngles(st, '>');
      if st' == [] then Broken else Pending(st')
    else Pending(st)
  }

  // ---- One line ----

  function Forward(line: string, i: nat, st: string): (r: Scan)
    requires i <= |line|
    ensures r.Found? ==> i < r.pos <= |line|
    decreases |line| - i
  {
    if i == |line| then Pending(st)
    else
      var r := ForwardChar(line, i, st);
      if r.Pending? then Forward(line, i + 1, r.stack) else r
  }

  function Backward(line: string, i: int, st: string): (r: Scan)
    requires -1 <= i < |line|
    ensures r.Found? ==> r.pos <= i
    decreases i + 1
  {
    if i < 0 then Pending(st)
    else
      var r := BackwardChar(line, i, st);
      if r.Pending? then Backward(line, if BackwardSkips(line, i) then i - 2 else i - 1, r.stack) else r
  }

  method PopAngles(stack: string, angle: char) returns (r: string)
    ensures r == WithoutAngles(stack, angle)
  {
    r := stack;
    while r != [] && r[|r| - 1] == angle
      invariant WithoutAngles(r, angle) == WithoutAngles(stack, angle)
    {
      r := r[..|r| - 1];
    }
  }

  method FindEndOfExpressionInLine(line: string, startpos: nat, stack: string) returns (r: Scan)
    requires startpos <= |line|
    ensures r == Forward(line, startpos, stack)
  {
    hide EndsWithOperator, WithoutAngles;
    var st := stack;
    for i := startpos to |line|
      invariant Forward(line, i, st) == Forward(line, startpos, stack)
    {
      var c := line[i];
      if IsOpen(c) {
        st := st + [c];
      } else if c == '<' {
        if i > 0 && line[i - 1] == '<' {
          if st != [] && st[|st| - 1] == '<' {
            st := st[..|st| - 1];
            if st == [] {
              return Broken;
            }
          }
        } else if i > 0 && EndsWithOperator(line[..i]) {
          continue;
        } else {
          st := st + ['<'];
        }
      } else if IsClose(c) {
        st := PopAngles(st, '<');
        if st == [] {
          return Broken;
        }
        if st[|st| - 1] == Mate(c) {
          st := st[..|st| - 1];
          if st == [] {
            return Found(i + 1);
          }
        } else {
          return Broken;
        }
      } else if c == '>' {
        if i > 0 && (line[i - 1] == '-' || EndsWithOperator(line[..i - 1])) {
          continue;
        }
        if st != [] && st[|st| - 1] == '<' {
          st := st[..|st| - 1];
          if st == [] {
            return Found(i + 1);
          }
        }
      } else if c == ';' {
        st := PopAngles(st, '<');
        if st == [] {
          return Broken;
        }
      }
    }
    return Pending(st);
  }

  method FindStartOfExpressionInLine(line: string, endpos: int, stack: string) returns (r: Scan)
    requires -1 <= endpos < |line|
    ensures r == Backward(line, endpos, stack)
  {
    hide EndsWithOperator, WithoutAngles;
    var st := stack;
    var i := endpos;
    while i >= 0
      invariant i < |line| && Backward(line, if i < 0 then -1 else i, st) == Backward(line, endpos, stack)
    {
      var c := line[i];
      if IsClose(c) {
        st := st + [c];
      } else if c == '>' {
        if i > 0 && (|| line[i - 1] == '-'
                     || (IsSpace(line[i - 1]) && i + 2 < |line| && line[i + 1] == '=' && IsSpace(line[i + 2]))
                     || EndsWithOperator(line[..i])) {
          i := i - 1;
        } else {
          st := st + ['>'];
        }
      } else if c == '<' {
        if i > 0 && line[i - 1] == '<' {
          i := i - 1;
        } else if st != [] && st[|st| - 1] == '>' {
          st := st[..|st| - 1];
          if st == [] {
            return Found(i);
          }
        }
      } else if IsOpen(c) {
        st := PopAngles(st, '>');
        if st == [] {
          return Broken;
        }
        if st[|st| - 1] == Mate(c) {
          st := st[..|st| - 1];
          if st == [] {
            return Found(i);
          }
        } else {
          return Broken;
        }
      } else if c == ';' {
        st := PopAngles(st, '>');
        if st == [] {
          return Broken;
        }
      }
      i := i - 1;
    }
    return Pending(st);
  }

  // ---- Many lines ----

  datatype Place = At(line: nat, col: nat) | Nowhere

  function Closing(lines: seq<string>, n: nat, i: nat, st: string): (r: Place)
    requires n < |lines| && i <= |lines[n]|
    decreases |lines| - n
  {
    match Forward(lines[n], i, st)
    case Found(e) => At(n, e)
    case Broken => Nowhere
    case Pending(st') =>
      if st' != [] && n + 1 < |lines| then Closing(lines, n + 1, 0, st') else Nowhere
  }

  function Opening(lines: seq<string>, n: nat, i: int, st: string): (r: Place)
    requires n < |lines| && -1 <= i < |lines[n]|
    decreases n
  {
    match Backward(lines[n], i, st)
    case Found(b) => At(n, b)
    case Broken => Nowhere
    case Pending(st') =>
      if st' != [] && n > 0 then Opening(lines, n - 1, |lines[n - 1]| - 1, st') else Nowhere
  }

  /** The place just past the bracket that closes the one at a position. */
  function Close(lines: seq<string>, n: nat, p: nat): (r: Place)
    requires n < |lines| && p < |lines[n]|
  {
    var c := lines[n][p];
    if !IsOpen(c) && c != '<' then Nowhere
    else if c == '<' && p + 1 < |lines[n]| && (lines[n][p + 1] == '<' || lines[n][p + 1] == '=') then Nowhere
    else Closing(lines, n, p, [])
  }

  /** The place of the bracket that opens the one at a position. */
  function Open(lines: seq<string>, n: nat, p: nat): (r: Place)
    requires n < |lines| && p < |lines[n]|
  {
    var c := lines[n][p];
    if !IsClose(c) && c != '>' then Nowhere else Opening(lines, n, p, [])
  }

  method CloseExpression(lines: seq<string>, linenum: nat, pos: nat) returns (n: nat, p: int)
    requires linenum < |lines| && pos < |lines[linenum]|
    ensures match Close(lines, linenum, pos)
            case At(m, q) => n == m && p == q
            case Nowhere => n == |lines| && p == -1
  {
    hide Forward;
    var line := lines[linenum];
    var c := line[pos];
    if (!IsOpen(c) && c != '<') || (c == '<' && pos + 1 < |line| && (line[pos + 1] == '<' || line[pos + 1] == '=')) {
      return |lines|, -1;
    }
    n := linenum;
    var r := FindEndOfExpressionInLine(line, pos, []);
    if r.Found? {
      return n, r.pos;
    }
    while r.Pending? && r.stack != [] && n < |lines| - 1
      invariant n < |lines| && !r.Found?
      invariant Close(lines, linenum, pos) ==
                if r.Pending? && r.stack != [] && n + 1 < |lines| then Closing(lines, n + 1, 0, r.stack) else Nowhere
      decreases |lines| - n
    {
      n := n + 1;
      r := FindEndOfExpressionInLine(lines[n], 0, r.stack);
      if r.Found? {
        return n, r.pos;
      }
    }
    return |lines|, -1;
  }

  method ReverseCloseExpression(lines: seq<string>, linenum: nat, pos: nat) returns (n: nat, p: int)
    requires linenum < |lines| && pos < |lines[linenum]|
    ensures match Open(lines, linenum, pos)
            case At(m, q) => n == m && p == q
            case Nowhere => n == 0 && p == -1
  {
    hide Backward;
    var line := lines[linenum];
    if !IsClose(line[pos]) && line[pos] != '>' {
      return 0, -1;
    }
    n := linenum;
    var r := FindStartOfExpressionInLine(line, pos, []);
    if r.Found? {
      return n, r.pos;
    }
    while r.Pending? && r.stack != [] && n > 0
      invariant n < |lines| && !r.Found?
      invariant Open(lines, linenum, pos) ==
                if r.Pending? && r.stack != [] && n > 0 then Opening(lines, n - 1, |lines[n - 1]| - 1, r.stack)
                else Nowhere
      decreases n
    {
      n := n - 1;
      r := FindStartOfExpressionInLine(lines[n], |lines[n]| - 1, r.stack);
      if r.Found? {
        return n, r.pos;
      }
    }
    return 0, -1;
  }
}
