/** cpplint's guess whether a class head is a template argument (tools/cpplint/cpplint.py). */
module TemplateLookAhead {
  import opened Wrappers
  import opened BracketMatcher

  // ---------- the look-ahead, as a function of the lines ----------

  // What the lines read so far say: decided, or still searching, or inside angle brackets.
  datatype Look = Yes | No | Searching | Closing(stack: seq<char>)

  predicate Telling(c: char) { c in {'{', '}', ';', '=', '[', ']', '.', '<', '>'} }

  // Only one of nine characters tells.
  function SearchFrom(line: string, pos: nat): Look
    decreases |line| - pos, 0
  {
    if pos >= |line| then Searching
    else if !Telling(line[pos]) then SearchFrom(line, pos + 1)
    else if line[pos] in {'{', '}', ';'} then No
    else if line[pos] != '<' then Yes
    else if !Closable(line, pos) then No
    else AfterClose(CloseLine(line, pos, []), line)
  }

  // Behind matched angle brackets the search goes on.
  function AfterClose(closed: Closed, line: string): Look
    requires closed.ClosedAt? ==> closed.column <= |line|
    decreases if closed.ClosedAt? then |line| - closed.column else 0, 1
  {
    match closed
    case ClosedAt(column) => SearchFrom(line, column)
    case Failed => No
    case StillOpen(stack) => if stack == [] then No else Closing(stack)
  }

  function LookLine(look: Look, line: string): Look {
    match look
    case Searching => SearchFrom(line, 0)
    case Closing(stack) => AfterClose(CloseLine(line, 0, stack), line)
    case _ => look
  }

  // The end of the file decides against a template argument.
  predicate LookOn(look: Look, lines: seq<string>)
    decreases |lines|
  {
    look.Yes? || (!look.No? && lines != [] && LookOn(LookLine(look, lines[0]), lines[1..]))
  }

  predicate InTemplate(line: string, pos: nat, following: seq<string>) { LookOn(SearchFrom(line, pos), following) }

  lemma {:induction false} NoneTelling(line: string, pos: nat)
    requires forall i | pos <= i < |line| :: !Telling(line[i])
    ensures SearchFrom(line, pos) == Searching
    decreases |line| - pos
  {
    if pos < |line| {
      NoneTelling(line, pos + 1);
    }
  }

  /** What decides is the first of nine characters: three decide against a template argument and five for one, and so does
      a '<' against it that looks like an operator. Any other characters before it do not matter. */
  lemma {:induction false} FirstTelling(text: string, pos: nat, c: char, rest: string)
    requires pos <= |text| && forall i | 0 <= i < |text| :: text[i] !in {'{', '}', ';', '=', '[', ']', '.', '<', '>'}
    ensures c in {'{', '}', ';'} ==> SearchFrom(text + [c] + rest, pos) == No
    ensures c in {'>', '=', '[', ']', '.'} ==> SearchFrom(text + [c] + rest, pos) == Yes
    ensures c == '<' && rest != "" && rest[0] in {'<', '='} ==> SearchFrom(text + [c] + rest, pos) == No
    ensures SearchFrom(text, pos) == Searching
    decreases |text| - pos
  {
    var line := text + [c] + rest;
    if pos < |text| {
      assert line[pos] == text[pos];
      FirstTelling(text, pos + 1, c, rest);
    } else {
      assert line[pos] == c && (rest != "" ==> line[pos + 1] == rest[0]);
    }
  }

  lemma LookDecided(look: Look, a: seq<string>, b: seq<string>)
    requires look.Yes? || look.No?
    ensures LookOn(look, a) == LookOn(look, b)
  {
  }

  lemma LookNext(look: Look, line: string, rest: seq<string>)
    ensures LookOn(look, [line] + rest) == LookOn(LookLine(look, line), rest)
  {
    assert ([line] + rest)[1..] == rest;
  }

  // ---------- the loop ----------

  // The first telling character from pos on. Without one the source's pattern settles for the line's last character
  // and moves on to the next line, as it does at the end of a line.
  method FindTelling(line: string, pos: nat) returns (k: nat)
    requires pos <= |line|
    ensures pos <= k <= |line| && SearchFrom(line, k) == SearchFrom(line, pos)
    ensures k < |line| ==> Telling(line[k])
  {
    k := pos;
    while k < |line| && !Telling(line[k])
      invariant pos <= k <= |line| && SearchFrom(line, k) == SearchFrom(line, pos)
    {
      k := k + 1;
    }
  }

  // Closing over several lines and searching on is looking on line by line.
  lemma {:induction false} CloseOnLooks(closed: Closed, lines: seq<string>, line: nat)
    requires line < |lines| && (closed.ClosedAt? ==> closed.column <= |lines[line]|)
    ensures var end := CloseOn(closed, lines, line);
            && (end.Some? ==> line <= end.value.0 < |lines| && end.value.1 <= |lines[end.value.0]|)
            && (end.Some? && end.value.0 == line ==> closed == ClosedAt(end.value.1))
            && LookOn(AfterClose(closed, lines[line]), lines[line + 1..]) ==
               (end.Some? && InTemplate(lines[end.value.0], end.value.1, lines[end.value.0 + 1..]))
    decreases |lines| - line
  {
    hide CloseLine, SearchFrom;
    if closed.StillOpen? && closed.stack != [] && line + 1 < |lines| {
      var next := CloseLine(lines[line + 1], 0, closed.stack);
      CloseOnLooks(next, lines, line + 1);
      assert lines[line + 1..][1..] == lines[line + 2..];
    }
  }

  /** True exactly when the lines, read from the position on, decide for a template argument before the file ends. */
  method InTemplateArgumentList(lines: seq<string>, lineNum: nat, pos: nat) returns (inside: bool)
    requires lineNum < |lines|
    ensures inside == InTemplate(lines[lineNum], pos, lines[lineNum + 1..])
  {
    var l: nat, p: nat := lineNum, pos;
    hide CloseLine, SearchFrom, CloseOn;
    while l < |lines|
      invariant l <= |lines|
      invariant InTemplate(lines[lineNum], pos, lines[lineNum + 1..]) == (l < |lines| && InTemplate(lines[l], p, lines[l + 1..]))
      decreases |lines| - l, if l < |lines| then |lines[l]| - p else 0
    {
      var line := lines[l];
      SearchStep(lines, l, p);
      if p >= |line| {
        l, p := l + 1, 0;
        continue;
      }
      var k := FindTelling(line, p);
      SearchStep(lines, l, k);
      if k == |line| {
        l, p := l + 1, 0;
        continue;
      }
      var token := line[k];
      if token in {'{', '}', ';'} {
        return false;
      }
      if token in {'>', '=', '[', ']', '.'} {
        return true;
      }
      var end := CloseExpression(lines, l, k);
      if Closable(line, k) {
        CloseOnLooks(CloseLine(line, k, []), lines, l);
      }
      if end.None? {
        return false;
      }
      l, p := end.value.0, end.value.1;
    }
    return false;
  }

  // What the character at a position, or the end of the line, says.
  lemma SearchStep(lines: seq<string>, l: nat, p: nat)
    requires l < |lines|
    ensures var line, inside := lines[l], InTemplate(lines[l], p, lines[l + 1..]);
            && (p >= |line| ==> inside == (l + 1 < |lines| && InTemplate(lines[l + 1], 0, lines[l + 2..])))
            && (p < |line| && line[p] in {'{', '}', ';'} ==> !inside)
            && (p < |line| && line[p] in {'>', '=', '[', ']', '.'} ==> inside)
            && (p < |line| && line[p] == '<' ==>
                  inside == (Closable(line, p) && LookOn(AfterClose(CloseLine(line, p, []), line), lines[l + 1..])))
  {
    hide CloseLine;
    if p >= |lines[l]| && l + 1 < |lines| {
      assert lines[l + 1..][1..] == lines[l + 2..];
    }
  }
}
