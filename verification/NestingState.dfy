/** cpplint's nesting stack and its preprocessor checkpoints (tools/cpplint/cpplint.py). */
module NestingTracker {
  import TemplateLookAhead

  datatype Kind = PlainBlock | ClassBlock | NamespaceBlock | ExternCBlock

  datatype Asm = NoAsm | InsideAsm | EndAsm | BlockAsm

  datatype Block = Block(kind: Kind, seenOpenBrace: bool, openParentheses: int, inlineAsm: Asm)

  // What the line's regular expressions find in it, in the order in which Update looks.
  datatype Directive = NoDirective | IfDirective | ElseDirective | EndifDirective

  datatype Token = OpenBrace(externC: bool, asm: bool) | SemicolonOrParen | CloseBrace

  datatype Line = Line(directive: Directive, parenDelta: int, asmHead: bool,
                       namespaces: seq<bool>,  // one per declaration: does a '{' follow it?
                       classHead: bool,        // does a class declaration follow?
                       headEnd: nat,           // the column from which the look-ahead starts
                       tokens: seq<Token>,
                       text: string)           // the line without comments and strings

  // A checkpoint of the nesting stack.
  datatype PreprocessorInfo = PreprocessorInfo(stackBeforeIf: seq<Block>, seenElse: bool, stackBeforeElse: seq<Block>)

  // ---------- one line, on values ----------

  predicate SeenOpenBrace(stack: seq<Block>) { stack == [] || stack[|stack| - 1].seenOpenBrace }

  function ReplaceTop(stack: seq<Block>, top: Block): seq<Block>
    requires stack != []
  {
    stack[|stack| - 1 := top]
  }

  // Parentheses and inline assembly of the innermost block.
  function CountParens(stack: seq<Block>, line: Line): seq<Block> {
    if stack == [] then stack
    else
      var top := stack[|stack| - 1];
      var open := top.openParentheses + line.parenDelta;
      var asm :=
        if top.inlineAsm == NoAsm || top.inlineAsm == EndAsm then
          if line.parenDelta != 0 && open == 1 && line.asmHead then InsideAsm else NoAsm
        else if top.inlineAsm == InsideAsm && open == 0 then EndAsm
        else top.inlineAsm;
      ReplaceTop(stack, top.(openParentheses := open, inlineAsm := asm))
  }

  function DeclareNamespaces(stack: seq<Block>, namespaces: seq<bool>): seq<Block>
    decreases |namespaces|
  {
    if namespaces == [] then stack
    else DeclareNamespaces(stack + [Block(NamespaceBlock, namespaces[0], 0, NoAsm)], namespaces[1..])
  }

  // A class head among open parentheses is an argument.
  function DeclareClass(stack: seq<Block>, isClass: bool): seq<Block> {
    if isClass && (stack == [] || stack[|stack| - 1].openParentheses == 0)
    then stack + [Block(ClassBlock, false, 0, NoAsm)]
    else stack
  }

  function Consume(stack: seq<Block>, token: Token): seq<Block> {
    match token
    case OpenBrace(externC, asm) =>
      if !SeenOpenBrace(stack) then ReplaceTop(stack, stack[|stack| - 1].(seenOpenBrace := true))
      else if externC then stack + [Block(ExternCBlock, true, 0, NoAsm)]
      else stack + [Block(PlainBlock, true, 0, if asm then BlockAsm else NoAsm)]
    case SemicolonOrParen => if !SeenOpenBrace(stack) then stack[..|stack| - 1] else stack
    case CloseBrace => if stack != [] then stack[..|stack| - 1] else stack
  }

  function ConsumeAll(stack: seq<Block>, tokens: seq<Token>): seq<Block>
    decreases |tokens|
  {
    if tokens == [] then stack else ConsumeAll(Consume(stack, tokens[0]), tokens[1..])
  }

  // The rest of a line, after its directive.
  function Code(stack: seq<Block>, line: Line, inTemplate: bool): seq<Block> {
    ConsumeAll(DeclareClass(DeclareNamespaces(CountParens(stack, line), line.namespaces), line.classHead && !inTemplate), line.tokens)
  }

  function Texts(lines: seq<Line>): seq<string> { seq(|lines|, i requires 0 <= i < |lines| => lines[i].text) }

  // Does the look-ahead take the line's class head for a template argument?
  predicate InTemplate(line: Line, following: seq<Line>) {
    TemplateLookAhead.InTemplate(line.text, line.headEnd, Texts(following))
  }

  // The nesting stack and the checkpoints of the open conditionals.
  datatype State = State(stack: seq<Block>, ppStack: seq<PreprocessorInfo>) {
    function Preprocess(directive: Directive): State {
      var n := |ppStack|;
      match directive
      case NoDirective => this
      case IfDirective => State(stack, ppStack + [PreprocessorInfo(stack, false, [])])
      case ElseDirective =>
        if n == 0 then this
        else
          var info := ppStack[n - 1];
          var saved := if info.seenElse then info else info.(seenElse := true, stackBeforeElse := stack);
          State(saved.stackBeforeIf, ppStack[n - 1 := saved])
      case EndifDirective =>
        if n == 0 then this
        else State(if ppStack[n - 1].seenElse then ppStack[n - 1].stackBeforeElse else stack, ppStack[..n - 1])
    }

    function Apply(line: Line, inTemplate: bool): State {
      var s := Preprocess(line.directive);
      s.(stack := Code(s.stack, line, inTemplate))
    }

    function Update(line: Line, following: seq<Line>): State { Apply(line, InTemplate(line, following)) }

    // Some lines, when others follow them in the file.
    function UpdateAll(lines: seq<Line>, following: seq<Line>): State
      decreases |lines|
    {
      if lines == [] then this else Update(lines[0], lines[1..] + following).UpdateAll(lines[1..], following)
    }
  }

  // ---------- what a declaration's body leaves ----------

  // A sequence of statements and properly nested braces.
  datatype Body = Empty | Statement(rest: Body) | Braced(externC: bool, asm: bool, inner: Body, rest: Body) {
    function Tokens(): seq<Token> {
      match this
      case Empty => []
      case Statement(rest) => [SemicolonOrParen] + rest.Tokens()
      case Braced(externC, asm, inner, rest) =>
        [OpenBrace(externC, asm)] + inner.Tokens() + [CloseBrace] + rest.Tokens()
    }
  }

  lemma {:induction false} ConsumeAppend(stack: seq<Block>, a: seq<Token>, b: seq<Token>)
    ensures ConsumeAll(stack, a + b) == ConsumeAll(ConsumeAll(stack, a), b)
    decreases |a|
  {
    if a == [] {
      assert a + b == b;
    } else {
      assert (a + b)[1..] == a[1..] + b;
      ConsumeAppend(Consume(stack, a[0]), a[1..], b);
    }
  }

  /** Inside an open block, statements and nested braces leave the nesting stack as it was. */
  lemma {:induction false} BodyRestores(stack: seq<Block>, body: Body)
    requires SeenOpenBrace(stack)
    ensures ConsumeAll(stack, body.Tokens()) == stack
    decreases body
  {
    match body
    case Empty =>
    case Statement(rest) =>
      assert body.Tokens()[1..] == rest.Tokens();
      BodyRestores(stack, rest);
    case Braced(externC, asm, inner, rest) =>
      var inside, after := Consume(stack, OpenBrace(externC, asm)), [CloseBrace] + rest.Tokens();
      BracedTokens(externC, asm, inner, rest);
      ConsumeAppend(inside, inner.Tokens(), after);
      BodyRestores(inside, inner);
      assert after[1..] == rest.Tokens();
      BodyRestores(stack, rest);
  }

  lemma BracedTokens(externC: bool, asm: bool, inner: Body, rest: Body)
    ensures var tokens := Braced(externC, asm, inner, rest).Tokens();
            tokens != [] && tokens[0] == OpenBrace(externC, asm) && tokens[1..] == inner.Tokens() + ([CloseBrace] + rest.Tokens())
  {
  }

  /** A declared class or namespace is on the stack exactly until its body closes, and a forward
      declaration until its semicolon. */
  lemma DeclarationEnds(stack: seq<Block>, head: Block, externC: bool, asm: bool, body: Body)
    requires !head.seenOpenBrace
    ensures ConsumeAll(stack + [head], [OpenBrace(externC, asm)] + body.Tokens()) == stack + [head.(seenOpenBrace := true)]
    ensures ConsumeAll(stack + [head], [OpenBrace(externC, asm)] + body.Tokens() + [CloseBrace]) == stack
    ensures ConsumeAll(stack + [head], [SemicolonOrParen]) == stack
  {
    var entering := [OpenBrace(externC, asm)] + body.Tokens();
    var inside := Consume(stack + [head], OpenBrace(externC, asm));
    assert inside == stack + [head.(seenOpenBrace := true)];
    assert entering[1..] == body.Tokens();
    BodyRestores(inside, body);
    ConsumeAppend(stack + [head], entering, [CloseBrace]);
    assert [CloseBrace][1..] == [] && [SemicolonOrParen][1..] == [];
    assert ConsumeAll(inside, [CloseBrace]) == ConsumeAll(Consume(inside, CloseBrace), []);
    assert ConsumeAll(stack + [head], [SemicolonOrParen]) == ConsumeAll(Consume(stack + [head], SemicolonOrParen), []);
  }

  // ---------- what each line pushes ----------

  /** What an opening brace does: it opens the innermost block if that one is not open yet, and pushes an open block
      otherwise, of its own kind for extern "C" and with the mark of an assembly block behind asm. */
  lemma BracePushes(stack: seq<Block>, asm: bool)
    ensures SeenOpenBrace(stack) ==>
              && Consume(stack, OpenBrace(true, asm)) == stack + [Block(ExternCBlock, true, 0, NoAsm)]
              && Consume(stack, OpenBrace(false, false)) == stack + [Block(PlainBlock, true, 0, NoAsm)]
              && Consume(stack, OpenBrace(false, true)) == stack + [Block(PlainBlock, true, 0, BlockAsm)]
    ensures !SeenOpenBrace(stack) ==> forall externC ::
              Consume(stack, OpenBrace(externC, asm)) == stack[..|stack| - 1] + [stack[|stack| - 1].(seenOpenBrace := true)]
  {
  }

  /** Namespaces are pushed in order, each open exactly if a brace follows it on the line. */
  lemma {:induction false} NamespacesPushed(stack: seq<Block>, namespaces: seq<bool>)
    ensures var now := DeclareNamespaces(stack, namespaces);
            && |now| == |stack| + |namespaces| && now[..|stack|] == stack
            && forall i | 0 <= i < |namespaces| :: now[|stack| + i] == Block(NamespaceBlock, namespaces[i], 0, NoAsm)
    decreases |namespaces|
  {
    if namespaces != [] {
      var first := Block(NamespaceBlock, namespaces[0], 0, NoAsm);
      NamespacesPushed(stack + [first], namespaces[1..]);
      var now := DeclareNamespaces(stack, namespaces);
      assert now[..|stack|] == now[..|stack| + 1][..|stack|] == stack;
      assert now[|stack|] == now[..|stack| + 1][|stack|] == first;
    }
  }

  lemma OpenNamespaces(stack: seq<Block>, namespaces: seq<bool>)
    requires forall i | 0 <= i < |namespaces| :: namespaces[i]
    ensures var now := DeclareNamespaces(stack, namespaces);
            && |now| == |stack| + |namespaces| && now[..|stack|] == stack
            && forall i | |stack| <= i < |now| :: now[i] == Block(NamespaceBlock, true, 0, NoAsm)
  {
    NamespacesPushed(stack, namespaces);
    var now := DeclareNamespaces(stack, namespaces);
    forall i | |stack| <= i < |now| ensures now[i] == Block(NamespaceBlock, true, 0, NoAsm) {
      assert namespaces[i - |stack|];
    }
  }

  function Closers(n: nat): seq<Token> { seq(n, _ => CloseBrace) }

  lemma {:induction false} ClosersPop(stack: seq<Block>, n: nat)
    requires n <= |stack|
    ensures ConsumeAll(stack, Closers(n)) == stack[..|stack| - n]
    decreases n
  {
    if n > 0 {
      assert Closers(n)[1..] == Closers(n - 1) && Closers(n)[0] == CloseBrace;
      ClosersPop(stack[..|stack| - 1], n - 1);
      assert stack[..|stack| - 1][..|stack| - n] == stack[..|stack| - n];
    } else {
      assert Closers(0) == [];
    }
  }

  // A line that declares namespaces and nothing else, followed by some tokens.
  predicate DeclaresNamespaces(line: Line, body: seq<Token>) {
    line.directive == NoDirective && line.namespaces != [] && !line.classHead && line.tokens == body
  }

  /** A line of namespaces whose braces are all on it, with any statements and nested braces behind them, leaves exactly
      the open namespaces on top; with as many closing braces behind, it leaves the stack as it was. */
  lemma NamespaceLine(s: State, line: Line, body: Body, following: seq<Line>)
    requires forall i | 0 <= i < |line.namespaces| :: line.namespaces[i]
    ensures DeclaresNamespaces(line, body.Tokens()) ==>
              var below, now := CountParens(s.stack, line), s.Update(line, following);
              && now.ppStack == s.ppStack && |now.stack| == |below| + |line.namespaces| && now.stack[..|below|] == below
              && forall i | |below| <= i < |now.stack| :: now.stack[i] == Block(NamespaceBlock, true, 0, NoAsm)
    ensures DeclaresNamespaces(line, body.Tokens() + Closers(|line.namespaces|)) ==>
              s.Update(line, following) == s.(stack := CountParens(s.stack, line))
  {
    var below := CountParens(s.stack, line);
    var inside := DeclareNamespaces(below, line.namespaces);
    OpenNamespaces(below, line.namespaces);
    if line.namespaces != [] {
      BodyRestores(inside, body);
      ConsumeAppend(inside, body.Tokens(), Closers(|line.namespaces|));
      ClosersPop(inside, |line.namespaces|);
    }
    hide CountParens, DeclareNamespaces, ConsumeAll, InTemplate, Closers;
    hide Body.Tokens;
  }

  /** A namespace or a class without its brace on the line stays unopened on top; the next opening brace opens it, whatever
      stands before the brace, and a semicolon drops it. */
  lemma HeadLine(s: State, line: Line, following: seq<Line>, externC: bool, asm: bool)
    requires line.directive == NoDirective && line.tokens == []
    requires (line.namespaces == [false] && !line.classHead)
          || (line.namespaces == [] && line.classHead && !InTemplate(line, following)
              && (s.stack == [] || s.stack[|s.stack| - 1].openParentheses + line.parenDelta == 0))
    ensures var below, now := CountParens(s.stack, line), s.Update(line, following);
            var kind := if line.classHead then ClassBlock else NamespaceBlock;
            && now.stack == below + [Block(kind, false, 0, NoAsm)]
            && Consume(now.stack, OpenBrace(externC, asm)) == below + [Block(kind, true, 0, NoAsm)]
            && Consume(now.stack, SemicolonOrParen) == below
  {
    var below, kind := CountParens(s.stack, line), if line.classHead then ClassBlock else NamespaceBlock;
    HeadPushed(below, line, InTemplate(line, following));
    HeadConsumed(below, kind, externC, asm);
    hide InTemplate, DeclareNamespaces, DeclareClass, Consume, CountParens;
  }

  lemma HeadPushed(stack: seq<Block>, line: Line, inTemplate: bool)
    requires (line.namespaces == [false] && !line.classHead)
          || (line.namespaces == [] && line.classHead && !inTemplate && (stack == [] || stack[|stack| - 1].openParentheses == 0))
    ensures DeclareClass(DeclareNamespaces(stack, line.namespaces), line.classHead && !inTemplate) ==
            stack + [Block(if line.classHead then ClassBlock else NamespaceBlock, false, 0, NoAsm)]
  {
    if line.namespaces == [false] {
      assert [false][1..] == [];
      assert DeclareNamespaces(stack, [false]) == DeclareNamespaces(stack + [Block(NamespaceBlock, false, 0, NoAsm)], []);
    }
  }

  lemma HeadConsumed(stack: seq<Block>, kind: Kind, externC: bool, asm: bool)
    ensures var head := stack + [Block(kind, false, 0, NoAsm)];
            && Consume(head, OpenBrace(externC, asm)) == stack + [Block(kind, true, 0, NoAsm)]
            && Consume(head, SemicolonOrParen) == stack
  {
  }

  /** The lines "namespace A {" and "int x;" leave the open namespace on the stack. */
  lemma NamespaceStaysOpen(text: string, text': string)
    ensures var first := Line(NoDirective, 0, false, [true], false, 0, [], text);
            var second := Line(NoDirective, 0, false, [], false, 0, [SemicolonOrParen], text');
            State([], []).UpdateAll([first, second], []).stack == [Block(NamespaceBlock, true, 0, NoAsm)]
  {
    var first := Line(NoDirective, 0, false, [true], false, 0, [], text);
    var second := Line(NoDirective, 0, false, [], false, 0, [SemicolonOrParen], text');
    assert [first, second][1..] == [second] && [second][1..] == [];
    var open := [Block(NamespaceBlock, true, 0, NoAsm)];
    hide InTemplate;
    assert DeclareNamespaces([], [true]) == open by { NamespacesPushed([], [true]); }
    assert Code([], first, InTemplate(first, [second])) == open;
    assert second.tokens[1..] == [];
    assert Code(open, second, InTemplate(second, [])) == open;
    hide Code, DeclareNamespaces, ConsumeAll, Consume, DeclareClass, CountParens;
    assert [second] + [] == [second];
    assert State(open, []).UpdateAll([second], []) == State(open, []).UpdateAll([], []);
  }

  // ---------- what a parenthesized list over several lines leaves ----------

  // A line of a longer statement: no directive, no namespace, no brace.
  predicate Continues(line: Line) {
    line.directive == NoDirective && line.namespaces == [] && forall i | 0 <= i < |line.tokens| :: line.tokens[i] == SemicolonOrParen
  }

  function Delta(lines: seq<Line>): int { if lines == [] then 0 else lines[0].parenDelta + Delta(lines[1..]) }

  // Lines of a statement after each of which a parenthesis is still open.
  predicate StaysOpen(open: int, lines: seq<Line>)
    decreases |lines|
  {
    lines == [] || (Continues(lines[0]) && open + lines[0].parenDelta != 0 && StaysOpen(open + lines[0].parenDelta, lines[1..]))
  }

  lemma {:induction false} NoBraces(stack: seq<Block>, tokens: seq<Token>)
    requires SeenOpenBrace(stack) && forall i | 0 <= i < |tokens| :: tokens[i] == SemicolonOrParen
    ensures ConsumeAll(stack, tokens) == stack
    decreases |tokens|
  {
    if tokens != [] {
      NoBraces(stack, tokens[1..]);
    }
  }

  lemma ContinueLine(s: State, line: Line, following: seq<Line>)
    requires s.stack != [] && SeenOpenBrace(s.stack) && Continues(line)
    requires line.classHead ==> s.stack[|s.stack| - 1].openParentheses + line.parenDelta != 0
    ensures s.Update(line, following) == s.(stack := CountParens(s.stack, line))
  {
    hide InTemplate;
    NoBraces(CountParens(s.stack, line), line.tokens);
  }

  /** While a parenthesis stays open, class heads are arguments: the nesting stack keeps its blocks, its top
      counts the parentheses, and inline assembly goes on. */
  lemma {:induction false} ArgumentsDeclareNoClass(s: State, lines: seq<Line>, following: seq<Line>)
    requires s.stack != [] && SeenOpenBrace(s.stack) && StaysOpen(s.stack[|s.stack| - 1].openParentheses, lines)
    ensures var n, t := |s.stack|, s.UpdateAll(lines, following);
            && t.ppStack == s.ppStack && |t.stack| == n && t.stack[..n - 1] == s.stack[..n - 1]
            && t.stack[n - 1] == s.stack[n - 1].(openParentheses := s.stack[n - 1].openParentheses + Delta(lines),
                                                 inlineAsm := t.stack[n - 1].inlineAsm)
            && (s.stack[n - 1].inlineAsm == InsideAsm ==> t.stack[n - 1].inlineAsm == InsideAsm)
    decreases |lines|
  {
    hide InTemplate;
    if lines != [] {
      ContinueLine(s, lines[0], lines[1..] + following);
      ArgumentsDeclareNoClass(s.Update(lines[0], lines[1..] + following), lines[1..], following);
    }
  }

  /** An inline assembly statement is inside from its head until the line that closes its parenthesis. */
  lemma AsmStatement(s: State, head: Line, middle: seq<Line>, last: Line, following: seq<Line>)
    requires s.stack != [] && SeenOpenBrace(s.stack)
    requires var top := s.stack[|s.stack| - 1]; top.openParentheses == 0 && top.inlineAsm in {NoAsm, EndAsm}
    requires Continues(head) && head.asmHead && head.parenDelta == 1 && StaysOpen(1, middle)
    requires Continues(last) && !last.classHead && 1 + Delta(middle) + last.parenDelta == 0
    ensures var n, during := |s.stack|, s.Update(head, middle + [last] + following).UpdateAll(middle, [last] + following);
            && |during.stack| == n && during.stack[n - 1].inlineAsm == InsideAsm
            && during.Update(last, following).stack == s.stack[n - 1 := s.stack[n - 1].(inlineAsm := EndAsm)]
  {
    var inside := s.Update(head, middle + [last] + following);
    AsmLine(s, head, middle + [last] + following);
    assert SeenOpenBrace(inside.stack);
    ArgumentsDeclareNoClass(inside, middle, [last] + following);
    var during := inside.UpdateAll(middle, [last] + following);
    hide *;
    SeenAlike(inside.stack, during.stack);
    AsmLine(during, last, following);
    SameBelow(s.stack, during.stack, s.stack[|s.stack| - 1].(inlineAsm := EndAsm));
  }

  lemma SeenAlike(stack: seq<Block>, stack': seq<Block>)
    requires stack != [] && |stack'| == |stack| && stack'[|stack| - 1].seenOpenBrace == stack[|stack| - 1].seenOpenBrace
    ensures SeenOpenBrace(stack') == SeenOpenBrace(stack)
  {
  }

  lemma SameBelow(stack: seq<Block>, stack': seq<Block>, top: Block)
    requires stack != [] && |stack'| == |stack| && stack'[..|stack| - 1] == stack[..|stack| - 1]
    ensures stack'[|stack| - 1 := top] == stack[|stack| - 1 := top]
  {
    assert stack' == stack[..|stack| - 1] + [stack'[|stack| - 1]];
  }

  // A line of a longer statement changes nothing but the top's count and mark.
  lemma AsmLine(s: State, line: Line, following: seq<Line>)
    requires s.stack != [] && SeenOpenBrace(s.stack) && Continues(line)
    requires line.classHead ==> s.stack[|s.stack| - 1].openParentheses + line.parenDelta != 0
    ensures var n, top, now := |s.stack|, s.stack[|s.stack| - 1], s.Update(line, following);
            var open := top.openParentheses + line.parenDelta;
            && (top.inlineAsm in {NoAsm, EndAsm} && line.asmHead && line.parenDelta != 0 && open == 1 ==>
                  now == s.(stack := s.stack[n - 1 := top.(openParentheses := 1, inlineAsm := InsideAsm)]))
            && (top.inlineAsm == InsideAsm && open == 0 ==>
                  now == s.(stack := s.stack[n - 1 := top.(openParentheses := 0, inlineAsm := EndAsm)]))
  {
    ContinueLine(s, line, following);
    hide State.Update;
  }

  // ---------- deleting the later branches ----------

  // For each open conditional, outermost first: are we in a branch other than its first?
  type Branches = seq<bool>

  predicate Skipping(branches: Branches) { true in branches }

  function Enter(branches: Branches, directive: Directive): Branches {
    var n := |branches|;
    match directive
    case NoDirective => branches
    case IfDirective => branches + [false]
    case ElseDirective => if n == 0 then branches else branches[n - 1 := true]
    case EndifDirective => if n == 0 then branches else branches[..n - 1]
  }

  function EnterAll(branches: Branches, lines: seq<Line>): Branches
    decreases |lines|
  {
    if lines == [] then branches else EnterAll(Enter(branches, lines[0].directive), lines[1..])
  }

  // The lines outside every branch other than the first of its conditional.
  function FirstBranches(branches: Branches, lines: seq<Line>): seq<Line>
    decreases |lines|
  {
    if lines == [] then [] else
    var inside := Enter(branches, lines[0].directive);
    (if Skipping(inside) then [] else [lines[0]]) + FirstBranches(inside, lines[1..])
  }

  // ---------- the checkpoints isolate the later branches ----------

  // The outermost conditional whose first branch is over, or |branches|.
  function Outer(branches: Branches): (k: nat)
    ensures k <= |branches| && (forall i | 0 <= i < k :: !branches[i]) && (k < |branches| ==> branches[k])
    ensures k < |branches| <==> Skipping(branches)
  {
    if branches == [] then 0 else if branches[0] then 0 else 1 + Outer(branches[1..])
  }

  // How the run over all lines relates to the run over the first branches only.
  ghost predicate Agrees(full: State, kept: State, branches: Branches) {
    var k := Outer(branches);
    && |full.ppStack| == |branches|
    && (forall i | 0 <= i < |branches| :: branches[i] <==> full.ppStack[i].seenElse)
    && if k < |branches| then
         && |kept.ppStack| == k + 1
         && kept.ppStack[..k] == full.ppStack[..k]
         && kept.stack == full.ppStack[k].stackBeforeElse
         && !kept.ppStack[k].seenElse && kept.ppStack[k].stackBeforeIf == full.ppStack[k].stackBeforeIf
       else
         kept == full
  }

  // Does it make a difference to the nesting stack how the look-ahead of the line decides?
  predicate Matters(stack: seq<Block>, line: Line) { Code(stack, line, true) != Code(stack, line, false) }

  /** The decision makes no difference without a class head or among open parentheses; it does for a head that
      could be declared when the line holds nothing more. */
  lemma MattersForHeads(stack: seq<Block>, line: Line)
    ensures !line.classHead ==> !Matters(stack, line)
    ensures var declared := DeclareNamespaces(CountParens(stack, line), line.namespaces);
            && (declared != [] && declared[|declared| - 1].openParentheses != 0 ==> !Matters(stack, line))
            && (line.classHead && (declared == [] || declared[|declared| - 1].openParentheses == 0) && line.tokens == [] ==>
                  Matters(stack, line))
  {
    var declared := DeclareNamespaces(CountParens(stack, line), line.namespaces);
    assert |declared + [Block(ClassBlock, false, 0, NoAsm)]| == |declared| + 1;
  }

  // A directive that leaves the later branches leaves the two runs in the same state.
  lemma PreprocessAgrees(full: State, kept: State, branches: Branches, directive: Directive)
    requires Agrees(full, kept, branches) && !Skipping(Enter(branches, directive))
    ensures full.Preprocess(directive) == kept.Preprocess(directive)
  {
    hide Outer, Skipping;
    var n, k, inside := |branches|, Outer(branches), Enter(branches, directive);
    match directive
    case NoDirective =>
    case IfDirective =>
      OuterIs(inside, if k < n then k else n + 1);
    case ElseDirective =>
      if n > 0 {
        OuterIs(inside, if k < n then k else n - 1);
      }
    case EndifDirective =>
      if n > 0 {
        OuterIs(inside, if k < n then k else n - 1);
      }
  }

  // Inside a later branch nothing reaches the checkpoints that will be restored.
  lemma SkippedAgrees(full: State, kept: State, branches: Branches, line: Line, inTemplate: bool)
    requires Agrees(full, kept, branches) && Skipping(Enter(branches, line.directive))
    ensures Agrees(full.Apply(line, inTemplate), kept, Enter(branches, line.directive))
  {
    hide Code, Outer, Skipping;
    var n, k, inside := |branches|, Outer(branches), Enter(branches, line.directive);
    match line.directive
    case NoDirective =>
    case IfDirective =>
      OuterIs(inside, if k < n then k else n + 1);
    case ElseDirective =>
      if n > 0 {
        OuterIs(inside, if k < n then k else n - 1);
      }
    case EndifDirective =>
      if n > 0 {
        OuterIs(inside, if k < n then k else n - 1);
      }
  }

  lemma KeptAgrees(full: State, kept: State, branches: Branches, line: Line, inTemplate: bool, inTemplate': bool)
    requires Agrees(full, kept, branches) && !Skipping(Enter(branches, line.directive))
    ensures full.Apply(line, inTemplate) == kept.Apply(line, inTemplate') <==>
            (Matters(kept.Preprocess(line.directive).stack, line) ==> inTemplate == inTemplate')
    ensures full.Apply(line, inTemplate) == kept.Apply(line, inTemplate') ==>
              Agrees(full.Apply(line, inTemplate), kept.Apply(line, inTemplate'), Enter(branches, line.directive))
  {
    PreprocessAgrees(full, kept, branches, line.directive);
    BranchesAfter(full, kept, branches, line, inTemplate);
    hide Code;
  }

  // The checkpoints say which conditionals are in a later branch.
  lemma BranchesAfter(full: State, kept: State, branches: Branches, line: Line, inTemplate: bool)
    requires Agrees(full, kept, branches)
    ensures var now, inside := full.Apply(line, inTemplate), Enter(branches, line.directive);
            |now.ppStack| == |inside| && forall i | 0 <= i < |inside| :: inside[i] <==> now.ppStack[i].seenElse
  {
    hide Code, Outer, Skipping;
  }

  lemma {:induction false} OuterIs(branches: Branches, k: nat)
    requires k <= |branches| && (forall i | 0 <= i < k :: !branches[i]) && (k < |branches| ==> branches[k])
    ensures Outer(branches) == k
  {
    if k > 0 {
      OuterIs(branches[1..], k - 1);
    }
  }

  // After every line outside the later branches the two runs are in the same state.
  predicate SameRuns(full: State, kept: State, branches: Branches, lines: seq<Line>)
    decreases |lines|
  {
    lines == [] ||
    var line, rest, inside := lines[0], lines[1..], Enter(branches, lines[0].directive);
    var full' := full.Update(line, rest);
    var kept' := if Skipping(inside) then kept else kept.Update(line, FirstBranches(inside, rest));
    (Skipping(inside) || full' == kept') && SameRuns(full', kept', inside, rest)
  }

  // Wherever it matters, the look-ahead decides alike over all following lines and over the kept ones.
  predicate LooksAgree(kept: State, branches: Branches, lines: seq<Line>)
    decreases |lines|
  {
    lines == [] ||
    var line, rest, inside := lines[0], lines[1..], Enter(branches, lines[0].directive);
    if Skipping(inside) then LooksAgree(kept, inside, rest)
    else
      && (Matters(kept.Preprocess(line.directive).stack, line) ==>
            InTemplate(line, rest) == InTemplate(line, FirstBranches(inside, rest)))
      && LooksAgree(kept.Update(line, FirstBranches(inside, rest)), inside, rest)
  }

  /** Over any lines, the run is outside the later branches always in the state of the lines with every branch
      but the first of each conditional deleted, if and only if no look-ahead that matters is decided by a deleted line. */
  lemma {:induction false} LaterBranchesExactly(full: State, kept: State, branches: Branches, lines: seq<Line>)
    requires Agrees(full, kept, branches)
    ensures SameRuns(full, kept, branches, lines) <==> LooksAgree(kept, branches, lines)
    decreases |lines|
  {
    hide InTemplate, Matters, Agrees;
    hide State.Preprocess, State.Apply;
    if lines != [] {
      var line, rest, inside := lines[0], lines[1..], Enter(branches, lines[0].directive);
      var a, b := InTemplate(line, rest), InTemplate(line, FirstBranches(inside, rest));
      if Skipping(inside) {
        SkippedAgrees(full, kept, branches, line, a);
        LaterBranchesExactly(full.Update(line, rest), kept, inside, rest);
      } else {
        KeptAgrees(full, kept, branches, line, a, b);
        if full.Apply(line, a) == kept.Apply(line, b) {
          LaterBranchesExactly(full.Apply(line, a), kept.Apply(line, b), inside, rest);
        }
      }
    }
  }

  lemma {:induction false} LaterBranchesDoNotMatter(full: State, kept: State, branches: Branches, lines: seq<Line>)
    requires Agrees(full, kept, branches) && LooksAgree(kept, branches, lines)
    ensures Agrees(full.UpdateAll(lines, []), kept.UpdateAll(FirstBranches(branches, lines), []), EnterAll(branches, lines))
    decreases |lines|
  {
    hide InTemplate, Matters, Agrees;
    hide State.Preprocess, State.Apply;
    if lines != [] {
      var line, rest, inside := lines[0], lines[1..], Enter(branches, lines[0].directive);
      var first := FirstBranches(inside, rest);
      var a, b := InTemplate(line, rest), InTemplate(line, first);
      assert rest + [] == rest && first + [] == first && ([line] + first)[1..] == first && [] + first == first;
      if Skipping(inside) {
        SkippedAgrees(full, kept, branches, line, a);
        LaterBranchesDoNotMatter(full.Update(line, rest), kept, inside, rest);
      } else {
        KeptAgrees(full, kept, branches, line, a, b);
        LaterBranchesDoNotMatter(full.Update(line, rest), kept.Update(line, first), inside, rest);
      }
    }
  }

  lemma StartAgrees(stack: seq<Block>)
    ensures Agrees(State(stack, []), State(stack, []), [])
  {
  }

  /** At the end of lines that end outside later branches, under that condition. */
  lemma FirstBranchesDecide(stack: seq<Block>, lines: seq<Line>)
    requires !Skipping(EnterAll([], lines)) && LooksAgree(State(stack, []), [], lines)
    ensures State(stack, []).UpdateAll(lines, []) == State(stack, []).UpdateAll(FirstBranches([], lines), [])
  {
    StartAgrees(stack);
    hide LooksAgree;
    hide State.UpdateAll;
    LaterBranchesDoNotMatter(State(stack, []), State(stack, []), [], lines);
  }

  // ---------- what a later branch starts from ----------

  // Lines inside a branch, with some conditionals open in it, all of which they close.
  predicate Inside(depth: nat, lines: seq<Line>)
    decreases |lines|
  {
    if lines == [] then depth == 0
    else
      match lines[0].directive
      case IfDirective => Inside(depth + 1, lines[1..])
      case EndifDirective => depth > 0 && Inside(depth - 1, lines[1..])
      case _ => Inside(depth, lines[1..])
  }

  // The lines inside a branch leave the checkpoint of its conditional, and those around it.
  lemma {:induction false} CheckpointStays(s: State, n: nat, depth: nat, lines: seq<Line>, following: seq<Line>)
    requires |s.ppStack| == n + 1 + depth && Inside(depth, lines)
    ensures var t := s.UpdateAll(lines, following);
            && |t.ppStack| == n + 1 && t.ppStack[..n] == s.ppStack[..n]
            && t.ppStack[n].stackBeforeIf == s.ppStack[n].stackBeforeIf
    decreases |lines|
  {
    hide Code, InTemplate;
    if lines != [] {
      var now := s.Update(lines[0], lines[1..] + following);
      CheckpointStays(now, n, |now.ppStack| - n - 1, lines[1..], following);
    }
  }

  /** Every later branch of a conditional starts from the nesting stack before its #if, whatever the branches before it hold. */
  lemma LaterBranchStarts(s: State, line: Line, branch: seq<Line>, following: seq<Line>)
    requires line.directive == IfDirective && Inside(0, branch)
    ensures s.Update(line, branch + following).UpdateAll(branch, following).Preprocess(ElseDirective).stack == s.stack
  {
    hide Code, InTemplate;
    var entered := s.Update(line, branch + following);
    assert entered.ppStack == s.ppStack + [PreprocessorInfo(s.stack, false, [])];
    CheckpointStays(entered, |s.ppStack|, 0, branch, following);
  }

  // ---------- look-aheads that do not reach a deleted line ----------

  // The look-ahead is decided, or the file ends, before a deleted line is read.
  predicate DecidedInTime(look: TemplateLookAhead.Look, branches: Branches, lines: seq<Line>)
    decreases |lines|
  {
    || look.Yes? || look.No? || lines == []
    || var inside := Enter(branches, lines[0].directive);
       !Skipping(inside) && DecidedInTime(TemplateLookAhead.LookLine(look, lines[0].text), inside, lines[1..])
  }

  // So it is for every class head outside the later branches.
  predicate HeadsDecided(branches: Branches, lines: seq<Line>)
    decreases |lines|
  {
    lines == [] ||
    var line, inside := lines[0], Enter(branches, lines[0].directive);
    && (!Skipping(inside) && line.classHead ==>
          DecidedInTime(TemplateLookAhead.SearchFrom(line.text, line.headEnd), inside, lines[1..]))
    && HeadsDecided(inside, lines[1..])
  }

  lemma {:induction false} DecidedInTimeAgrees(look: TemplateLookAhead.Look, branches: Branches, lines: seq<Line>)
    requires DecidedInTime(look, branches, lines)
    ensures TemplateLookAhead.LookOn(look, Texts(lines)) == TemplateLookAhead.LookOn(look, Texts(FirstBranches(branches, lines)))
    decreases |lines|
  {
    var kept := FirstBranches(branches, lines);
    if look.Yes? || look.No? {
      TemplateLookAhead.LookDecided(look, Texts(lines), Texts(kept));
    } else if lines != [] {
      var inside := Enter(branches, lines[0].directive);
      var first := FirstBranches(inside, lines[1..]);
      var next := TemplateLookAhead.LookLine(look, lines[0].text);
      DecidedInTimeAgrees(next, inside, lines[1..]);
      TextsFirst(lines);
      assert kept[1..] == first;
      TextsFirst(kept);
      hide *;
      TemplateLookAhead.LookNext(look, lines[0].text, Texts(lines[1..]));
      TemplateLookAhead.LookNext(look, lines[0].text, Texts(first));
    }
  }

  lemma TextsFirst(lines: seq<Line>)
    requires lines != []
    ensures Texts(lines) == [lines[0].text] + Texts(lines[1..])
  {
  }

  /** The condition holds whenever the look-ahead of every class head is decided before the next deleted line; with
      no class head in the lines it always does. */
  lemma {:induction false} HeadsDecidedAgree(kept: State, branches: Branches, lines: seq<Line>)
    requires HeadsDecided(branches, lines)
    ensures LooksAgree(kept, branches, lines)
    decreases |lines|
  {
    hide DecidedInTime, Matters, Code;
    hide State.Apply, State.Preprocess;
    if lines != [] {
      var line, rest, inside := lines[0], lines[1..], Enter(branches, lines[0].directive);
      if Skipping(inside) {
        HeadsDecidedAgree(kept, inside, rest);
      } else {
        if line.classHead {
          DecidedInTimeAgrees(TemplateLookAhead.SearchFrom(line.text, line.headEnd), inside, rest);
        } else {
          MattersForHeads(kept.Preprocess(line.directive).stack, line);
        }
        HeadsDecidedAgree(kept.Update(line, FirstBranches(inside, rest)), inside, rest);
      }
    }
  }

  // ---------- a class head decided inside a deleted branch ----------

  function Plain(text: string, directive: Directive): Line { Line(directive, 0, false, [], false, 0, [], text) }

  const UNDECIDED_CLASS := [
    Line(NoDirective, 0, false, [], true, 9, [], "class Foo"),
    Plain("#if A", IfDirective),
    Plain("#else", ElseDirective),
    Plain(">", NoDirective),
    Plain("#endif", EndifDirective),
    Line(NoDirective, 0, false, [], false, 0, [OpenBrace(false, false)], "{")]

  lemma Skip(text: string, rest: seq<string>)
    requires forall i | 0 <= i < |text| :: !TemplateLookAhead.Telling(text[i])
    ensures TemplateLookAhead.LookOn(TemplateLookAhead.Searching, [text] + rest) ==
            TemplateLookAhead.LookOn(TemplateLookAhead.Searching, rest)
  {
    TemplateLookAhead.NoneTelling(text, 0);
    TemplateLookAhead.LookNext(TemplateLookAhead.Searching, text, rest);
  }

  // Over all lines the look-ahead meets the '>', over the first branches alone the '{'.
  lemma UndecidedLooks(l: Line, rest: seq<Line>, kept: seq<Line>)
    requires l == UNDECIDED_CLASS[0] && rest == UNDECIDED_CLASS[1..] && kept == [rest[0], rest[3], rest[4]]
    ensures InTemplate(l, rest) && !InTemplate(l, kept)
  {
    TemplateLookAhead.NoneTelling("class Foo", 9);
    assert Texts(rest) == ["#if A"] + (["#else"] + ([">"] + ["#endif", "{"]));
    assert Texts(kept) == ["#if A"] + (["#endif"] + (["{"] + []));
    Skip("#if A", ["#else"] + ([">"] + ["#endif", "{"]));
    Skip("#else", [">"] + ["#endif", "{"]);
    Skip("#if A", ["#endif"] + (["{"] + []));
    Skip("#endif", ["{"] + []);
    TemplateLookAhead.LookNext(TemplateLookAhead.Searching, ">", ["#endif", "{"]);
    TemplateLookAhead.LookNext(TemplateLookAhead.Searching, "{", []);
  }

  lemma FirstStep(branches: Branches, line: Line, rest: seq<Line>, inside: Branches)
    requires inside == Enter(branches, line.directive)
    ensures FirstBranches(branches, [line] + rest) == (if Skipping(inside) then [] else [line]) + FirstBranches(inside, rest)
    ensures EnterAll(branches, [line] + rest) == EnterAll(inside, rest)
  {
    assert ([line] + rest)[1..] == rest;
  }

  lemma FirstNone(branches: Branches)
    ensures FirstBranches(branches, []) == [] && EnterAll(branches, []) == branches
  {
  }

  lemma UndecidedFirst(l: seq<Line>)
    requires l == UNDECIDED_CLASS
    ensures FirstBranches([], l) == [l[0], l[1], l[4], l[5]] && EnterAll([], l) == []
  {
    UndecidedFirstEnd(l);
    Directives(l);
    FirstThree(l[0], l[1], l[2], l[3..], [l[4], l[5]]);
    hide *;
    Glue(l);
    assert [l[0], l[1]] + [l[4], l[5]] == [l[0], l[1], l[4], l[5]];
  }

  lemma FirstThree(a: Line, b: Line, c: Line, rest: seq<Line>, tail: seq<Line>)
    requires a.directive == NoDirective && b.directive == IfDirective && c.directive == ElseDirective
    requires FirstBranches([true], rest) == tail && EnterAll([true], rest) == []
    ensures FirstBranches([], [a] + ([b] + ([c] + rest))) == [a, b] + tail
    ensures EnterAll([], [a] + ([b] + ([c] + rest))) == []
  {
    Enters();
    hide *;
    FirstStep([false], c, rest, [true]);
    FirstStep([], b, [c] + rest, [false]);
    FirstStep([], a, [b] + ([c] + rest), []);
    assert [a] + ([b] + ([] + tail)) == [a, b] + tail;
  }

  lemma Directives(l: seq<Line>)
    requires l == UNDECIDED_CLASS
    ensures |l| == 6 && l[0].directive == NoDirective && l[1].directive == IfDirective && l[2].directive == ElseDirective
  {
  }

  lemma Enters()
    ensures Enter([], NoDirective) == [] && Enter([], IfDirective) == [false] && Enter([false], ElseDirective) == [true]
    ensures Skipping([true]) && !Skipping([false]) && !Skipping([])
  {
    assert [false][0 := true] == [true] && [] + [false] == [false];
  }

  lemma UndecidedFirstEnd(l: seq<Line>)
    requires l == UNDECIDED_CLASS
    ensures FirstBranches([true], l[3..]) == [l[4], l[5]] && EnterAll([true], l[3..]) == []
  {
    assert [true][..0] == [] && [l[5]] + [] == l[5..];
    FirstNone([]);
    hide FirstBranches, EnterAll;
    Glue(l);
    FirstStep([], l[5], [], []);
    FirstStep([true], l[4], l[5..], []);
    FirstStep([true], l[3], l[4..], [true]);
  }

  lemma RunFirst(s: State, line: Line, rest: seq<Line>, inTemplate: bool)
    requires inTemplate == InTemplate(line, rest)
    ensures s.UpdateAll([line] + rest, []) == s.Apply(line, inTemplate).UpdateAll(rest, [])
  {
    hide InTemplate;
    assert ([line] + rest)[1..] == rest && rest + [] == rest;
  }

  lemma NoHead(s: State, line: Line, inTemplate: bool)
    requires !line.classHead
    ensures s.Apply(line, inTemplate) == s.Apply(line, false)
  {
  }

  // A run of lines without class heads.
  lemma RunPlain(s: State, line: Line, rest: seq<Line>)
    requires !line.classHead
    ensures s.UpdateAll([line] + rest, []) == s.Apply(line, false).UpdateAll(rest, [])
  {
    RunFirst(s, line, rest, InTemplate(line, rest));
    NoHead(s, line, InTemplate(line, rest));
  }

  const PLAIN_BLOCK := Block(PlainBlock, true, 0, NoAsm)
  const CLASS_HEAD := Block(ClassBlock, false, 0, NoAsm)

  /** The lines "class Foo", "#if A", "#else", ">", "#endif", "{" open a plain block; without the branch of #else, which
      would be deleted, they open a class. */
  lemma DeletedLineDecides()
    ensures State([], []).UpdateAll(UNDECIDED_CLASS, []) == State([PLAIN_BLOCK], [])
    ensures State([], []).UpdateAll(FirstBranches([], UNDECIDED_CLASS), []) == State([CLASS_HEAD.(seenOpenBrace := true)], [])
    ensures EnterAll([], UNDECIDED_CLASS) == [] && !LooksAgree(State([], []), [], UNDECIDED_CLASS)
  {
    var l := UNDECIDED_CLASS;
    UndecidedFirst(l);
    UndecidedLooks(l[0], l[1..], [l[1], l[4], l[5]]);
    FullRun(l);
    FirstRun(l);
    hide *;
    if LooksAgree(State([], []), [], l) {
      NotSkipping();
      FirstBranchesDecide([], l);
    }
  }

  lemma NotSkipping()
    ensures !Skipping([])
  {
  }

  // A line without code leaves what its directive leaves.
  lemma PlainApply(s: State, line: Line)
    requires line == Plain(line.text, line.directive)
    requires var stack := s.Preprocess(line.directive).stack; stack != [] ==> stack[|stack| - 1].inlineAsm == NoAsm
    ensures s.Apply(line, false) == s.Preprocess(line.directive)
  {
  }

  lemma HeadApply(inTemplate: bool)
    ensures State([], []).Apply(UNDECIDED_CLASS[0], inTemplate) == State(if inTemplate then [] else [CLASS_HEAD], [])
  {
  }

  lemma FullRun(l: seq<Line>)
    requires l == UNDECIDED_CLASS && InTemplate(l[0], l[1..])
    ensures State([], []).UpdateAll(l, []) == State([PLAIN_BLOCK], [])
  {
    var s0, s1, s2 := State([], []), State([], [PreprocessorInfo([], false, [])]), State([], [PreprocessorInfo([], true, [])]);
    assert s0.Preprocess(IfDirective) == s1 && s1.Preprocess(ElseDirective) == s2;
    PlainApply(s0, l[1]);
    PlainApply(s1, l[2]);
    HeadApply(true);
    FullRunEnd(l);
    hide *;
    Glue(l);
    RunFirst(s0, l[0], l[1..], true);
    RunPlain(s0, l[1], l[2..]);
    RunPlain(s1, l[2], l[3..]);
  }

  lemma FullRunEnd(l: seq<Line>)
    requires l == UNDECIDED_CLASS
    ensures State([], [PreprocessorInfo([], true, [])]).UpdateAll(l[3..], []) == State([PLAIN_BLOCK], [])
  {
    var s0, s2 := State([], []), State([], [PreprocessorInfo([], true, [])]);
    assert s2.Preprocess(EndifDirective) == s0;
    PlainApply(s2, l[3]);
    PlainApply(s2, l[4]);
    OpensBlock(l[5]);
    RunNone(State([PLAIN_BLOCK], []));
    assert [l[5]] + [] == l[5..];
    hide *;
    Glue(l);
    RunPlain(s2, l[3], l[4..]);
    RunPlain(s2, l[4], l[5..]);
    RunPlain(s0, l[5], []);
  }

  lemma FirstRun(l: seq<Line>)
    requires l == UNDECIDED_CLASS && !InTemplate(l[0], [l[1], l[4], l[5]])
    ensures State([], []).UpdateAll([l[0], l[1], l[4], l[5]], []) == State([CLASS_HEAD.(seenOpenBrace := true)], [])
  {
    var s0, s1 := State([CLASS_HEAD], []), State([CLASS_HEAD], [PreprocessorInfo([CLASS_HEAD], false, [])]);
    assert s0.Preprocess(IfDirective) == s1 && s1.Preprocess(EndifDirective) == s0;
    PlainApply(s0, l[1]);
    PlainApply(s1, l[4]);
    HeadApply(false);
    OpensBlock(l[5]);
    RunNone(State([CLASS_HEAD.(seenOpenBrace := true)], []));
    assert [l[0]] + [l[1], l[4], l[5]] == [l[0], l[1], l[4], l[5]] && [l[1]] + [l[4], l[5]] == [l[1], l[4], l[5]];
    assert [l[4]] + [l[5]] == [l[4], l[5]] && [l[5]] + [] == [l[5]];
    hide InTemplate;
    hide State.UpdateAll, State.Apply, State.Preprocess;
    RunFirst(State([], []), l[0], [l[1], l[4], l[5]], false);
    RunPlain(s0, l[1], [l[4], l[5]]);
    RunPlain(s1, l[4], [l[5]]);
    RunPlain(s0, l[5], []);
  }

  lemma Glue(l: seq<Line>)
    requires |l| == 6
    ensures [l[0]] + l[1..] == l && [l[1]] + l[2..] == l[1..] && [l[2]] + l[3..] == l[2..] && [l[3]] + l[4..] == l[3..]
    ensures [l[4]] + l[5..] == l[4..]
  {
  }

  lemma RunNone(s: State)
    ensures s.UpdateAll([], []) == s
  {
  }

  lemma OpensBlock(line: Line)
    requires line == UNDECIDED_CLASS[5]
    ensures State([], []).Apply(line, false) == State([PLAIN_BLOCK], [])
    ensures State([CLASS_HEAD], []).Apply(line, false) == State([CLASS_HEAD.(seenOpenBrace := true)], [])
  {
    assert line.tokens[1..] == [];
  }

  // ---------- the class ----------

  class NestingState {
    var stack: seq<Block>
    var ppStack: seq<PreprocessorInfo>

    ghost function Abs(): State
      reads this
    {
      State(stack, ppStack)
    }

    constructor ()
      ensures Abs() == State([], [])
    {
      stack, ppStack := [], [];
    }

    method UpdatePreprocessor(directive: Directive)
      modifies this
      ensures Abs() == old(Abs()).Preprocess(directive)
    {
      var n := |ppStack|;
      match directive
      case NoDirective =>
      case IfDirective =>
        ppStack := ppStack + [PreprocessorInfo(stack, false, [])];
      case ElseDirective =>
        if n > 0 {
          if !ppStack[n - 1].seenElse {
            ppStack := ppStack[n - 1 := ppStack[n - 1].(seenElse := true, stackBeforeElse := stack)];
          }
          stack := ppStack[n - 1].stackBeforeIf;
        }
      case EndifDirective =>
        if n > 0 {
          if ppStack[n - 1].seenElse {
            stack := ppStack[n - 1].stackBeforeElse;
          }
          ppStack := ppStack[..n - 1];
        }
    }

    method PushNamespaces(namespaces: seq<bool>)
      modifies this`stack
      ensures stack == DeclareNamespaces(old(stack), namespaces)
    {
      var i := 0;
      while i < |namespaces|
        invariant i <= |namespaces|
        invariant DeclareNamespaces(stack, namespaces[i..]) == DeclareNamespaces(old(stack), namespaces)
      {
        assert namespaces[i..][1..] == namespaces[i + 1..];
        stack := stack + [Block(NamespaceBlock, namespaces[i], 0, NoAsm)];
        i := i + 1;
      }
    }

    method ConsumeTokens(tokens: seq<Token>)
      modifies this`stack
      ensures stack == ConsumeAll(old(stack), tokens)
    {
      hide Consume;
      var i := 0;
      while i < |tokens|
        invariant i <= |tokens| && ConsumeAll(stack, tokens[i..]) == ConsumeAll(old(stack), tokens)
      {
        assert tokens[i..][1..] == tokens[i + 1..];
        stack := Consume(stack, tokens[i]);
        i := i + 1;
      }
    }

    method Update(lines: seq<Line>, lineNum: nat)
      requires lineNum < |lines|
      modifies this
      ensures Abs() == old(Abs()).Update(lines[lineNum], lines[lineNum + 1..])
    {
      var line := lines[lineNum];
      assert Texts(lines)[lineNum + 1..] == Texts(lines[lineNum + 1..]);
      hide ConsumeAll, CountParens, DeclareClass, DeclareNamespaces, Texts, TemplateLookAhead.InTemplate;
      hide State.Preprocess;
      UpdatePreprocessor(line.directive);
      stack := CountParens(stack, line);
      PushNamespaces(line.namespaces);
      var inTemplate := TemplateLookAhead.InTemplateArgumentList(Texts(lines), lineNum, line.headEnd);
      stack := DeclareClass(stack, line.classHead && !inTemplate);
      ConsumeTokens(line.tokens);
    }

    /** All lines of a file: when they end outside later branches and no look-ahead that matters is decided by a
        deleted line, the nesting stack is that of the first branches alone. */
    method ProcessFile(lines: seq<Line>)
      requires Abs() == State([], [])
      modifies this
      ensures Abs() == State([], []).UpdateAll(lines, [])
      ensures !Skipping(EnterAll([], lines)) && LooksAgree(State([], []), [], lines) ==>
                Abs() == State([], []).UpdateAll(FirstBranches([], lines), [])
    {
      hide LooksAgree, FirstBranches, EnterAll;
      hide State.Update;
      for i := 0 to |lines|
        invariant Abs().UpdateAll(lines[i..], []) == State([], []).UpdateAll(lines, [])
      {
        assert lines[i..][1..] == lines[i + 1..] && lines[i + 1..] + [] == lines[i + 1..];
        Update(lines, i);
      }
      if !Skipping(EnterAll([], lines)) && LooksAgree(State([], []), [], lines) {
        FirstBranchesDecide([], lines);
      }
    }
  }
}
