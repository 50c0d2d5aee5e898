/** cpplint's bracket matcher (tools/cpplint/cpplint.py). */
module BracketMatcher {
  import opened Characters
  import opened Wrappers

  predicate IsOpen(c: char) { c in {'(', '[', '{'} }

  predicate IsClose(c: char) { c in {')', ']', '}'} }

  predicate Matches(open: char, close: char) {
    (open == '(' && close == ')') || (open == '[' && close == ']') || (open == '{' && close == '}')
  }

  predicate NoAngles(s: string) { '<' !in s && '>' !in s }

  // ---------- well-bracketed words ----------

  ghost predicate Balanced(w: string)
    decreases |w|, 2
  {
    || w == ""
    || (!IsOpen(w[0]) && !IsClose(w[0]) && Balanced(w[1..]))
    || exists k: nat :: BracketedUpTo(w, k)
  }

  ghost predicate BracketedUpTo(w: string, k: nat)
    decreases |w|, 1
  {
    0 < k < |w| && Bracketed(w[..k + 1]) && Balanced(w[k + 1..])
  }

  // A well-bracketed word inside one pair of brackets.
  ghost predicate Bracketed(w: string)
    decreases |w|, 0
  {
    |w| >= 2 && Matches(w[0], w[|w| - 1]) && Balanced(w[1..|w| - 1])
  }

  /** The three pairs of brackets enclose balanced words, and no other pair does. */
  lemma ThreePairs(inner: string, open: char, close: char)
    requires Balanced(inner)
    ensures Bracketed([open] + inner + [close]) <==>
              (open == '(' && close == ')') || (open == '[' && close == ']') || (open == '{' && close == '}')
  {
    var w := [open] + inner + [close];
    assert w[1..|w| - 1] == inner;
  }

  /** A word without the six brackets is balanced, and a bracket alone is not. */
  lemma {:induction false} PlainWord(w: string)
    requires forall i | 0 <= i < |w| :: w[i] !in {'(', ')', '[', ']', '{', '}'}
    ensures Balanced(w)
    decreases |w|
  {
    if w != "" {
      PlainWord(w[1..]);
    }
  }

  lemma LoneBracket(c: char)
    ensures Balanced([c]) <==> c !in {'(', ')', '[', ']', '{', '}'}
  {
    assert [c][1..] == "";
  }

  // ---------- the scan, as a function ----------

  datatype Scanned = Found(consumed: nat) | Fail | More(stack: seq<char>)

  // Reads s with the given open brackets, the innermost last.
  function Scan(s: string, stack: seq<char>): Scanned
    decreases |s|
  {
    if s == "" then More(stack)
    else if IsOpen(s[0]) then Advance(Scan(s[1..], stack + [s[0]]))
    else if IsClose(s[0]) then
      if stack == [] || !Matches(stack[|stack| - 1], s[0]) then Fail
      else if |stack| == 1 then Found(1)
      else Advance(Scan(s[1..], stack[..|stack| - 1]))
    else if s[0] == ';' && stack == [] then Fail
    else Advance(Scan(s[1..], stack))
  }

  function Advance(r: Scanned): Scanned { AdvanceBy(r, 1) }

  function AdvanceBy(r: Scanned, n: nat): Scanned { if r.Found? then Found(r.consumed + n) else r }

  lemma {:induction false} ScanSplit(a: string, b: string, stack: seq<char>)
    ensures Scan(a + b, stack) ==
            if Scan(a, stack).More? then AdvanceBy(Scan(b, Scan(a, stack).stack), |a|) else Scan(a, stack)
    decreases |a|
  {
    if a == "" {
      assert a + b == b;
    } else {
      assert (a + b)[1..] == a[1..] + b;
      ScanSplit(a[1..], b, stack + [a[0]]);
      ScanSplit(a[1..], b, stack);
      if stack != [] {
        ScanSplit(a[1..], b, stack[..|stack| - 1]);
      }
    }
  }

  // ---------- the scan recognises bracketed words ----------

  lemma {:induction false} ScanBalanced(w: string, stack: seq<char>)
    requires Balanced(w) && stack != []
    ensures Scan(w, stack) == More(stack)
    decreases |w|
  {
    if w == "" {
    } else if !IsOpen(w[0]) && !IsClose(w[0]) && Balanced(w[1..]) {
      ScanBalanced(w[1..], stack);
    } else {
      var k: nat :| BracketedUpTo(w, k);
      ScanBracketed(w[..k + 1], stack);
      ScanSplit(w[..k + 1], w[k + 1..], stack);
      assert w == w[..k + 1] + w[k + 1..];
      ScanBalanced(w[k + 1..], stack);
    }
  }

  lemma {:induction false} ScanBracketed(w: string, stack: seq<char>)
    requires Bracketed(w)
    ensures Scan(w, stack) == if stack == [] then Found(|w|) else More(stack)
    decreases |w|, 0
  {
    var inner, last := w[1..|w| - 1], w[|w| - 1];
    var inside := stack + [w[0]];
    ScanBalanced(inner, inside);
    ScanSplit(inner, [last], inside);
    assert w[1..] == inner + [last];
    ScanCloser(w[0], last, stack);
    assert Scan(w, stack) == Advance(Scan(w[1..], inside));
  }

  lemma ScanCloser(open: char, close: char, stack: seq<char>)
    requires Matches(open, close)
    ensures Scan([close], stack + [open]) == if stack == [] then Found(1) else More(stack)
  {
    assert (stack + [open])[..|stack|] == stack;
    assert [close][1..] == "";
    assert Scan("", stack) == More(stack);
  }

  // The words that close every bracket of the stack, innermost first, ending with the last one closed.
  ghost predicate Closes(w: string, stack: seq<char>)
    decreases |stack|, 1
  {
    stack != [] && exists k: nat :: ClosesAt(w, stack, k)
  }

  // The innermost bracket is closed at position k.
  ghost predicate ClosesAt(w: string, stack: seq<char>, k: nat)
    requires stack != []
    decreases |stack|, 0
  {
    k < |w| && Balanced(w[..k]) && Matches(stack[|stack| - 1], w[k]) &&
    if |stack| == 1 then k + 1 == |w| else Closes(w[k + 1..], stack[..|stack| - 1])
  }

  lemma {:induction false} FoundCloses(s: string, stack: seq<char>)
    requires stack != [] && Scan(s, stack).Found?
    ensures Scan(s, stack).consumed <= |s| && Closes(s[..Scan(s, stack).consumed], stack)
    decreases |s|
  {
    var n := Scan(s, stack).consumed;
    if IsOpen(s[0]) {
      var inside := stack + [s[0]];
      FoundCloses(s[1..], inside);
      assert inside[..|inside| - 1] == stack;
      assert s[1..][..n - 1] == s[..n][1..];
      ClosesOpen(s[..n], stack);
    } else if IsClose(s[0]) {
      if |stack| > 1 {
        FoundCloses(s[1..], stack[..|stack| - 1]);
        assert s[1..][..n - 1] == s[..n][1..];
      }
      assert s[..n][..0] == "";
      assert ClosesAt(s[..n], stack, 0);
    } else {
      FoundCloses(s[1..], stack);
      assert s[1..][..n - 1] == s[..n][1..];
      ClosesPlain(s[..n], stack);
    }
  }

  lemma ClosesPlain(w: string, stack: seq<char>)
    requires w != "" && !IsOpen(w[0]) && !IsClose(w[0]) && Closes(w[1..], stack)
    ensures Closes(w, stack)
  {
    var k: nat :| ClosesAt(w[1..], stack, k);
    assert w[..k + 1][1..] == w[1..][..k];
    assert w[1..][k + 1..] == w[k + 2..];
    assert ClosesAt(w, stack, k + 1);
  }

  lemma ClosesOpen(w: string, stack: seq<char>)
    requires w != "" && IsOpen(w[0]) && stack != [] && Closes(w[1..], stack + [w[0]])
    ensures Closes(w, stack)
  {
    var v, inside := w[1..], stack + [w[0]];
    assert inside[..|inside| - 1] == stack;
    var k: nat :| ClosesAt(v, inside, k);
    var u := v[k + 1..];
    assert Closes(u, stack);
    var j: nat :| ClosesAt(u, stack, j);
    var m := k + 2 + j;
    assert w[..m][1..k + 1] == v[..k] && w[..m][k + 2..] == u[..j];
    BracketedThen(w[..m], k + 1, v[..k], u[..j]);
    hide Balanced, Closes;
    assert w[m] == u[j] && w[m + 1..] == u[j + 1..];
    assert ClosesAt(w, stack, m);
  }

  lemma BracketedThen(w: string, k: nat, inner: string, rest: string)
    requires 0 < k < |w| && w[1..k] == inner && w[k + 1..] == rest && Matches(w[0], w[k])
    requires Balanced(inner) && Balanced(rest)
    ensures Balanced(w)
  {
    assert w[..k + 1][1..k] == inner;
    assert BracketedUpTo(w, k);
  }

  /** From an opening bracket the scan finds an end exactly if a prefix is a bracketed word, and then
      the end is the end of that word. */
  lemma ScanFindsBracketed(s: string, n: nat)
    requires n <= |s| && s != "" && IsOpen(s[0])
    ensures Scan(s, []) == Found(n) <==> Bracketed(s[..n])
  {
    if Bracketed(s[..n]) {
      ScanBracketed(s[..n], []);
      ScanSplit(s[..n], s[n..], []);
      assert s == s[..n] + s[n..];
    }
    if Scan(s, []) == Found(n) {
      assert [] + [s[0]] == [s[0]];
      FoundCloses(s[1..], [s[0]]);
      assert s[1..][..n - 1] == s[..n][1..];
      ClosesOne(s[..n]);
    }
  }

  lemma ClosesOne(w: string)
    requires w != "" && Closes(w[1..], [w[0]])
    ensures Bracketed(w)
  {
    var k: nat :| ClosesAt(w[1..], [w[0]], k);
    assert w[1..][..k] == w[1..|w| - 1];
  }

  // ---------- reading backwards ----------

  function Mirror(c: char): char {
    match c
    case '(' => ')'
    case ')' => '('
    case '[' => ']'
    case ']' => '['
    case '{' => '}'
    case '}' => '{'
    case _ => c
  }

  // The text as it looks from its other end.
  function Mirrored(s: string): (r: string)
    ensures |r| == |s|
  {
    seq(|s|, i requires 0 <= i < |s| => Mirror(s[|s| - 1 - i]))
  }

  lemma MirrorMirror(c: char)
    ensures Mirror(Mirror(c)) == c
  {
  }

  lemma MirrorTwice(s: string)
    ensures Mirrored(Mirrored(s)) == s
  {
    var r := Mirrored(s);
    forall i | 0 <= i < |s| ensures Mirrored(r)[i] == s[i] {
      var j := |s| - 1 - i;
      assert |s| - 1 - j == i;
      assert r[j] == Mirror(s[i]) && Mirrored(r)[i] == Mirror(r[j]);
      MirrorMirror(s[i]);
    }
    assert Mirrored(r) == s;
  }

  lemma MirrorAppend(a: string, b: string)
    ensures Mirrored(a + b) == Mirrored(b) + Mirrored(a)
  {
    var n, l, r := |a + b|, Mirrored(a + b), Mirrored(b) + Mirrored(a);
    forall i | 0 <= i < n ensures l[i] == r[i] {
      assert (a + b)[n - 1 - i] == if n - 1 - i < |a| then a[n - 1 - i] else b[n - 1 - i - |a|];
      assert l[i] == Mirror((a + b)[n - 1 - i]);
    }
    assert l == r;
  }

  lemma {:induction false} BalancedAppend(a: string, b: string)
    requires Balanced(a) && Balanced(b)
    ensures Balanced(a + b)
    decreases |a|
  {
    if a == "" {
      assert a + b == b;
    } else if !IsOpen(a[0]) && !IsClose(a[0]) && Balanced(a[1..]) {
      BalancedAppend(a[1..], b);
      assert (a + b)[1..] == a[1..] + b;
    } else {
      var k: nat :| BracketedUpTo(a, k);
      BalancedAppend(a[k + 1..], b);
      assert (a + b)[..k + 1] == a[..k + 1] && (a + b)[k + 1..] == a[k + 1..] + b;
      assert BracketedUpTo(a + b, k);
    }
  }

  lemma {:induction false} MirrorBalanced(w: string)
    requires Balanced(w)
    ensures Balanced(Mirrored(w))
    decreases |w|, 1
  {
    if w == "" {
    } else if !IsOpen(w[0]) && !IsClose(w[0]) && Balanced(w[1..]) {
      MirrorBalanced(w[1..]);
      MirrorAppend([w[0]], w[1..]);
      assert w == [w[0]] + w[1..];
      PlainBalanced(Mirror(w[0]));
      assert Mirrored([w[0]]) == [Mirror(w[0])];
      BalancedAppend(Mirrored(w[1..]), [Mirror(w[0])]);
    } else {
      var k: nat :| BracketedUpTo(w, k);
      MirrorBalanced(w[k + 1..]);
      MirrorBracketed(w[..k + 1]);
      MirrorAppend(w[..k + 1], w[k + 1..]);
      assert w == w[..k + 1] + w[k + 1..];
      BracketedBalanced(Mirrored(w[..k + 1]));
      BalancedAppend(Mirrored(w[k + 1..]), Mirrored(w[..k + 1]));
    }
  }

  lemma PlainBalanced(c: char)
    requires !IsOpen(c) && !IsClose(c)
    ensures Balanced([c])
  {
    assert [c][1..] == "";
    assert Balanced("");
  }

  lemma BracketedBalanced(w: string)
    requires Bracketed(w)
    ensures Balanced(w)
  {
    assert w[..|w|] == w && w[|w|..] == "";
    assert Balanced("");
    assert BracketedUpTo(w, |w| - 1);
  }

  lemma {:induction false} MirrorBracketed(w: string)
    requires Bracketed(w)
    ensures Bracketed(Mirrored(w))
    decreases |w|, 0
  {
    var inner := w[1..|w| - 1];
    MirrorBalanced(inner);
    var r := Mirrored(w);
    assert r[0] == Mirror(w[|w| - 1]) && r[|w| - 1] == Mirror(w[0]);
    assert Mirrored(w)[1..|w| - 1] == Mirrored(inner);
  }

  lemma BracketedMirror(w: string)
    ensures Bracketed(Mirrored(w)) <==> Bracketed(w)
  {
    if Bracketed(w) { MirrorBracketed(w); }
    if Bracketed(Mirrored(w)) {
      MirrorBracketed(Mirrored(w));
      MirrorTwice(w);
    }
  }

  /** Forward from the opening bracket at a the scan ends at b exactly if backward from the closing bracket
      at b - 1 it ends at a: exactly if the text between them is a bracketed word. */
  lemma ForwardInvertsBackward(text: string, a: nat, b: nat)
    requires a < b <= |text|
    ensures IsOpen(text[a]) && Scan(text[a..], []) == Found(b - a) <==> Bracketed(text[a..b])
    ensures IsClose(text[b - 1]) && Scan(Mirrored(text[..b]), []) == Found(b - a) <==> Bracketed(text[a..b])
  {
    var word := text[a..b];
    assert text[a..][..b - a] == word && word[0] == text[a] && word[|word| - 1] == text[b - 1];
    assert Bracketed(word) ==> IsOpen(text[a]) && IsClose(text[b - 1]);
    var back := Mirrored(text[..b]);
    MirrorCut(text, a, b);
    BracketedMirror(word);
    hide Scan, Bracketed, Mirrored;
    if IsOpen(text[a]) {
      ScanFindsBracketed(text[a..], b - a);
    }
    if IsClose(text[b - 1]) {
      ScanFindsBracketed(back, b - a);
    }
  }

  lemma MirrorCut(text: string, a: nat, b: nat)
    requires a < b <= |text|
    ensures Mirrored(text[..b])[..b - a] == Mirrored(text[a..b]) && Mirrored(text[..b])[0] == Mirror(text[b - 1])
  {
    assert text[..b] == text[..a] + text[a..b];
    MirrorAppend(text[..a], text[a..b]);
  }

  // ---------- the scanners of one line ----------

  // Where a forward scan of one line ends: just past the end, nowhere, or at the end of the line.
  datatype Closed = ClosedAt(column: nat) | Failed | StillOpen(stack: seq<char>)

  // The pending '<' on top of the stack were operators.
  function DropAngles(stack: seq<char>): seq<char> {
    if stack != [] && stack[|stack| - 1] == '<' then DropAngles(stack[..|stack| - 1]) else stack
  }

  // The word operator and then only spaces.
  predicate EndsInOperator(s: string) {
    if s != "" && IsSpace(s[|s| - 1]) then EndsInOperator(s[..|s| - 1])
    else |s| >= 8 && s[|s| - 8..] == "operator" && (|s| > 8 ==> !IsWord(s[|s| - 9]))
  }

  // The forward scan of a line from column i, angle brackets and their guesses included.
  function CloseLine(line: string, i: nat, stack: seq<char>): (r: Closed)
    requires i <= |line|
    ensures r.ClosedAt? ==> i < r.column <= |line|
    decreases |line| - i
  {
    if i == |line| then StillOpen(stack)
    else
      var c := line[i];
      if IsOpen(c) then CloseLine(line, i + 1, stack + [c])
      else if c == '<' then
        if i > 0 && line[i - 1] == '<' then
          if stack != [] && stack[|stack| - 1] == '<' then
            if |stack| == 1 then Failed else CloseLine(line, i + 1, stack[..|stack| - 1])
          else CloseLine(line, i + 1, stack)
        else if i > 0 && EndsInOperator(line[..i]) then CloseLine(line, i + 1, stack)
        else CloseLine(line, i + 1, stack + [c])
      else if IsClose(c) then
        var open := DropAngles(stack);
        if open == [] || !Matches(open[|open| - 1], c) then Failed
        else if |open| == 1 then ClosedAt(i + 1)
        else CloseLine(line, i + 1, open[..|open| - 1])
      else if c == '>' then
        if i > 0 && (line[i - 1] == '-' || EndsInOperator(line[..i - 1])) then CloseLine(line, i + 1, stack)
        else if stack != [] && stack[|stack| - 1] == '<' then
          if |stack| == 1 then ClosedAt(i + 1) else CloseLine(line, i + 1, stack[..|stack| - 1])
        else CloseLine(line, i + 1, stack)
      else if c == ';' then
        if DropAngles(stack) == [] then Failed else CloseLine(line, i + 1, DropAngles(stack))
      else CloseLine(line, i + 1, stack)
  }

  // ---------- angle brackets ----------

  predicate Pair(open: char, close: char) { (open == '<' && close == '>') || Matches(open, close) }

  // Words of the four pairs of brackets, properly nested.
  ghost predicate Nested(w: string)
    decreases |w|
  {
    || w == ""
    || (w[0] !in {'<', '>'} && !IsOpen(w[0]) && !IsClose(w[0]) && Nested(w[1..]))
    || exists k: nat :: k < |w| && NestedUpTo(w, k)
  }

  ghost predicate NestedUpTo(w: string, k: nat)
    requires k < |w|
    decreases |w|, 0
  {
    0 < k && Pair(w[0], w[k]) && Nested(w[1..k]) && Nested(w[k + 1..])
  }

  // A line with nothing that could make an angle bracket an operator.
  predicate Calm(line: string) {
    && (forall k | 0 <= k < |line| :: line[k] !in {';', '-'} && !(k > 0 && line[k] == '<' == line[k - 1]))
    && forall k | 0 <= k <= |line| :: !EndsInOperator(line[..k])
  }

  lemma {:induction false} NestedRead(line: string, i: nat, j: nat, stack: seq<char>)
    requires i <= j <= |line| && Calm(line) && Nested(line[i..j]) && stack != []
    ensures CloseLine(line, i, stack) == CloseLine(line, j, stack)
    decreases j - i
  {
    hide *;
    if i < j {
      var k := NestedSplits(line, i, j);
      if k == 0 {
        NestedRead(line, i + 1, j, stack);
        OtherCharacter(line, i, stack);
      } else {
        NestedRead(line, i + 1, i + k, stack + [line[i]]);
        NestedRead(line, i + k + 1, j, stack);
        PairRead(line, i, stack, i + k);
      }
    }
  }

  // A nested part starts with a character of no kind, or with a bracket closed k characters on.
  lemma NestedSplits(line: string, i: nat, j: nat) returns (k: nat)
    requires i < j <= |line| && Nested(line[i..j])
    ensures i + k < j
    ensures k == 0 ==> line[i] !in {'<', '>'} && !IsOpen(line[i]) && !IsClose(line[i]) && Nested(line[i + 1..j])
    ensures k > 0 ==> Pair(line[i], line[i + k]) && Nested(line[i + 1..i + k]) && Nested(line[i + k + 1..j])
  {
    var w := line[i..j];
    assert w[0] == line[i] && w[1..] == line[i + 1..j];
    if w[0] !in {'<', '>'} && !IsOpen(w[0]) && !IsClose(w[0]) && Nested(w[1..]) {
      k := 0;
    } else {
      k :| k < |w| && NestedUpTo(w, k);
      hide Nested;
      SubSlices(line, i, j, k);
    }
  }

  lemma SubSlices(line: string, i: nat, j: nat, k: nat)
    requires i + k < j <= |line| && k > 0
    ensures line[i..j][1..k] == line[i + 1..i + k] && line[i..j][k + 1..] == line[i + k + 1..j]
    ensures line[i..j][0] == line[i] && line[i..j][k] == line[i + k]
  {
    var w, a, b := line[i..j], line[i + 1..i + k], line[i + k + 1..j];
    forall x | 0 <= x < |a| ensures w[1..k][x] == a[x] {}
    forall x | 0 <= x < |b| ensures w[k + 1..][x] == b[x] {
      assert w[k + 1..][x] == w[k + 1 + x] == line[i + (k + 1 + x)];
    }
    assert w[1..k] == a && w[k + 1..] == b;
  }

  lemma OtherCharacter(line: string, i: nat, stack: seq<char>)
    requires i < |line| && Calm(line) && line[i] !in {'<', '>'} && !IsOpen(line[i]) && !IsClose(line[i])
    ensures CloseLine(line, i, stack) == CloseLine(line, i + 1, stack)
  {
  }

  // An opening bracket is pushed, and its closing one pops it.
  lemma PairRead(line: string, i: nat, stack: seq<char>, j: nat)
    requires i < j < |line| && Calm(line) && Pair(line[i], line[j])
    ensures CloseLine(line, i, stack) == CloseLine(line, i + 1, stack + [line[i]])
    ensures CloseLine(line, j, stack + [line[i]]) == if stack == [] then ClosedAt(j + 1) else CloseLine(line, j + 1, stack)
  {
    var inside := stack + [line[i]];
    assert inside[..|inside| - 1] == stack;
    assert !EndsInOperator(line[..i]) && !EndsInOperator(line[..j - 1]);
    hide EndsInOperator;
    assert line[i] != '<' ==> DropAngles(inside) == inside;
  }

  /** On a calm line the scan from any of the four opening brackets ends just past the closing one. */
  lemma PairCloses(line: string, i: nat, j: nat)
    requires i < j < |line| && Calm(line) && Pair(line[i], line[j]) && Nested(line[i + 1..j])
    ensures CloseLine(line, i, []) == ClosedAt(j + 1)
  {
    hide Calm, CloseLine, Nested;
    assert [] + [line[i]] == [line[i]];
    PairRead(line, i, [], j);
    NestedRead(line, i + 1, j, [line[i]]);
  }

  /** The guesses: an arrow and a shift are no brackets, a closing bracket or a semicolon makes a pending '<' an operator,
      and a semicolon ends a template argument list unclosed. */
  lemma Guesses()
    ensures CloseLine("<a->b>", 0, []) == ClosedAt(6)
    ensures CloseLine("<a<<b>", 0, []) == ClosedAt(6)
    ensures CloseLine("(a<b)", 0, []) == ClosedAt(5)
    ensures CloseLine("(a<b;)", 0, []) == ClosedAt(6)
    ensures CloseLine("<a;b>", 0, []) == Failed
  {
    Arrow();
    Shift();
    LessThan();
    Semicolon();
    Unclosed();
  }

  lemma {:induction false} ShortNoOperator(s: string)
    requires |s| < 8
    ensures !EndsInOperator(s)
    decreases |s|
  {
    if s != "" {
      ShortNoOperator(s[..|s| - 1]);
    }
  }

  lemma NoOperator(s: string)
    requires |s| < 8
    ensures forall k | 0 <= k <= |s| :: !EndsInOperator(s[..k])
  {
    forall k | 0 <= k <= |s| ensures !EndsInOperator(s[..k]) {
      ShortNoOperator(s[..k]);
    }
  }

  lemma LessThan()
    ensures CloseLine("(a<b)", 0, []) == ClosedAt(5)
  {
    var s := "(a<b)";
    NoOperator(s);
    assert ['(', '<'][..1] == ['('];
    assert DropAngles(['(', '<']) == DropAngles(['(']) == ['('];
    hide EndsInOperator, DropAngles;
    assert CloseLine(s, 3, ['(', '<']) == CloseLine(s, 4, ['(', '<']) == ClosedAt(5);
    assert CloseLine(s, 1, ['(']) == CloseLine(s, 2, ['(']) == CloseLine(s, 3, ['(', '<']);
    assert [] + ['('] == ['('];
  }

  lemma Semicolon()
    ensures CloseLine("(a<b;)", 0, []) == ClosedAt(6)
  {
    var s := "(a<b;)";
    NoOperator(s);
    assert ['(', '<'][..1] == ['('];
    assert DropAngles(['(', '<']) == DropAngles(['(']) == ['('];
    hide EndsInOperator, DropAngles;
    assert CloseLine(s, 4, ['(', '<']) == CloseLine(s, 5, ['(']) == ClosedAt(6);
    assert CloseLine(s, 2, ['(']) == CloseLine(s, 3, ['(', '<']) == CloseLine(s, 4, ['(', '<']);
    assert CloseLine(s, 1, ['(']) == CloseLine(s, 2, ['(']);
    assert [] + ['('] == ['('];
  }

  lemma Unclosed()
    ensures CloseLine("<a;b>", 0, []) == Failed
  {
    var s := "<a;b>";
    NoOperator(s);
    assert ['<'][..0] == [];
    assert DropAngles(['<']) == DropAngles([]) == [];
    hide EndsInOperator, DropAngles;
    assert [] + ['<'] == ['<'];
    assert CloseLine(s, 1, ['<']) == CloseLine(s, 2, ['<']) == Failed;
  }

  lemma Arrow()
    ensures CloseLine("<a->b>", 0, []) == ClosedAt(6)
  {
    var s := "<a->b>";
    NoOperator(s);
    hide EndsInOperator, DropAngles;
    assert CloseLine(s, 4, ['<']) == CloseLine(s, 5, ['<']) == ClosedAt(6);
    assert CloseLine(s, 2, ['<']) == CloseLine(s, 3, ['<']) == CloseLine(s, 4, ['<']);
    assert CloseLine(s, 1, ['<']) == CloseLine(s, 2, ['<']);
    assert [] + ['<'] == ['<'];
  }

  lemma Shift()
    ensures CloseLine("<a<<b>", 0, []) == ClosedAt(6)
  {
    var s := "<a<<b>";
    NoOperator(s);
    hide EndsInOperator, DropAngles;
    assert ['<', '<'][..1] == ['<'] && ['<'] + ['<'] == ['<', '<'] && [] + ['<'] == ['<'];
    assert CloseLine(s, 4, ['<']) == CloseLine(s, 5, ['<']) == ClosedAt(6);
    assert CloseLine(s, 2, ['<']) == CloseLine(s, 3, ['<', '<']) == CloseLine(s, 4, ['<']);
    assert CloseLine(s, 1, ['<']) == CloseLine(s, 2, ['<']);
  }

  /** The word operator ends a text when only spaces follow it and no word character precedes it. */
  lemma {:induction false} OperatorEnds(before: string, spaces: string)
    requires forall i | 0 <= i < |spaces| :: spaces[i] in {' ', '\t', '\n', '\r', '\U{0B}', '\U{0C}'}
    ensures EndsInOperator(before + "operator" + spaces) <==>
              before == "" || !('a' <= before[|before| - 1] <= 'z' || 'A' <= before[|before| - 1] <= 'Z'
                                || '0' <= before[|before| - 1] <= '9' || before[|before| - 1] == '_')
    decreases |spaces|
  {
    var s := before + "operator" + spaces;
    if spaces != "" {
      assert s[..|s| - 1] == before + "operator" + spaces[..|spaces| - 1];
      OperatorEnds(before, spaces[..|spaces| - 1]);
    } else {
      assert s == before + "operator" && s[|s| - 8..] == "operator";
    }
  }

  method PopAngles(stack: seq<char>) returns (open: seq<char>)
    ensures open == DropAngles(stack)
  {
    open := stack;
    while open != [] && open[|open| - 1] == '<'
      invariant DropAngles(open) == DropAngles(stack)
      decreases |open|
    {
      open := open[..|open| - 1];
    }
  }

  method FindEndOfExpressionInLine(line: string, startPos: nat, stack: seq<char>)
    returns (endPos: int, newStack: Option<seq<char>>)
    requires startPos <= |line|
    ensures match CloseLine(line, startPos, stack)
            case ClosedAt(column) => endPos == column && newStack == None
            case Failed => endPos == -1 && newStack == None
            case StillOpen(open) => endPos == -1 && newStack == Some(open)
  {
    hide EndsInOperator, DropAngles;
    var open := stack;
    var i := startPos;
    while i < |line|
      invariant startPos <= i <= |line| && CloseLine(line, startPos, stack) == CloseLine(line, i, open)
    {
      var c := line[i];
      if IsOpen(c) {
        open := open + [c];
      } else if c == '<' {
        if i > 0 && line[i - 1] == '<' {
          if open != [] && open[|open| - 1] == '<' {
            open := open[..|open| - 1];
            if open == [] {
              return -1, None;
            }
          }
        } else if i > 0 && EndsInOperator(line[..i]) {
          i := i + 1;
          continue;
        } else {
          open := open + [c];
        }
      } else if IsClose(c) {
        open := PopAngles(open);
        if open == [] {
          return -1, None;
        }
        if Matches(open[|open| - 1], c) {
          open := open[..|open| - 1];
          if open == [] {
            return i + 1, None;
          }
        } else {
          return -1, None;
        }
      } else if c == '>' {
        if i > 0 && (line[i - 1] == '-' || EndsInOperator(line[..i - 1])) {
          i := i + 1;
          continue;
        }
        if open != [] && open[|open| - 1] == '<' {
          open := open[..|open| - 1];
          if open == [] {
            return i + 1, None;
          }
        }
      } else if c == ';' {
        open := PopAngles(open);
        if open == [] {
          return -1, None;
        }
      }
      i := i + 1;
    }
    return -1, Some(open);
  }

  /** On a line without angle brackets the scan is that of the three kinds of brackets. */
  lemma {:induction false} CloseLineIsScan(line: string, i: nat, stack: seq<char>)
    requires i <= |line| && NoAngles(line) && '<' !in stack
    ensures match CloseLine(line, i, stack)
            case ClosedAt(column) => i < column && Scan(line[i..], stack) == Found(column - i)
            case Failed => Scan(line[i..], stack) == Fail
            case StillOpen(open) => '<' !in open && Scan(line[i..], stack) == More(open)
    decreases |line| - i
  {
    if i < |line| {
      hide EndsInOperator;
      assert line[i..][1..] == line[i + 1..];
      var c := line[i];
      if IsOpen(c) {
        CloseLineIsScan(line, i + 1, stack + [c]);
      } else if IsClose(c) {
        if |stack| > 1 {
          CloseLineIsScan(line, i + 1, stack[..|stack| - 1]);
        }
      } else {
        CloseLineIsScan(line, i + 1, stack);
      }
    }
  }

  method FindStartOfExpressionInLine(line: string, endPos: int, stack: seq<char>)
    returns (startPos: int, newStack: Option<seq<char>>)
    requires -1 <= endPos < |line| && NoAngles(line)
    ensures match Scan(Mirrored(line[..endPos + 1]), MirroredStack(stack))
            case Found(n) => startPos == endPos + 1 - n && 0 <= startPos <= endPos && newStack == None
            case Fail => startPos == -1 && newStack == None
            case More(open) => startPos == -1 && newStack.Some? && open == MirroredStack(newStack.value)
  {
    var open := stack;
    var i := endPos;
    while i >= 0
      invariant -1 <= i <= endPos
      invariant Scan(Mirrored(line[..endPos + 1]), MirroredStack(stack)) ==
                AdvanceBy(Scan(Mirrored(line[..i + 1]), MirroredStack(open)), endPos - i)
    {
      var c := line[i];
      MirrorStep(line, i, open);
      if IsClose(c) {
        open := open + [c];
      } else if IsOpen(c) {
        if open == [] {
          return -1, None;
        }
        if Matches(c, open[|open| - 1]) {
          open := open[..|open| - 1];
          if open == [] {
            return i, None;
          }
        } else {
          return -1, None;
        }
      } else if c == ';' {
        if open == [] {
          return -1, None;
        }
      }
      i := i - 1;
    }
    return -1, Some(open);
  }

  function MirroredStack(stack: seq<char>): seq<char> { seq(|stack|, i requires 0 <= i < |stack| => Mirror(stack[i])) }

  lemma MirrorStep(line: string, i: nat, open: seq<char>)
    requires i < |line|
    ensures var t := Mirrored(line[..i + 1]); t[0] == Mirror(line[i]) && t[1..] == Mirrored(line[..i])
    ensures MirroredStack(open + [line[i]]) == MirroredStack(open) + [Mirror(line[i])]
    ensures open != [] ==>
              && MirroredStack(open[..|open| - 1]) == MirroredStack(open)[..|open| - 1]
              && MirroredStack(open)[|open| - 1] == Mirror(open[|open| - 1])
  {
  }

  // ---------- several lines ----------

  function Flat(lines: seq<string>): string {
    if lines == [] then "" else lines[0] + Flat(lines[1..])
  }

  // The offset of a column of a line in the flat text.
  function Offset(lines: seq<string>, line: nat, column: nat): nat
    requires line <= |lines|
  {
    |Flat(lines[..line])| + column
  }

  lemma {:induction false} FlatAppend(a: seq<string>, b: seq<string>)
    ensures Flat(a + b) == Flat(a) + Flat(b)
  {
    if a == [] {
      assert a + b == b;
    } else {
      assert (a + b)[1..] == a[1..] + b;
      FlatAppend(a[1..], b);
    }
  }

  lemma FlatCut(lines: seq<string>, k: nat)
    requires k <= |lines|
    ensures Flat(lines) == Flat(lines[..k]) + Flat(lines[k..])
  {
    assert lines == lines[..k] + lines[k..];
    FlatAppend(lines[..k], lines[k..]);
  }

  lemma FlatTo(lines: seq<string>, k: nat)
    requires k < |lines|
    ensures Flat(lines[..k + 1]) == Flat(lines[..k]) + lines[k]
  {
    assert lines[..k + 1] == lines[..k] + [lines[k]];
    FlatAppend(lines[..k], [lines[k]]);
    assert Flat([lines[k]]) == lines[k] + "";
  }

  lemma FlatFrom(lines: seq<string>, k: nat)
    requires k < |lines|
    ensures Flat(lines[k..]) == lines[k] + Flat(lines[k + 1..])
  {
    assert lines[k..][1..] == lines[k + 1..];
  }

  predicate AllNoAngles(lines: seq<string>) { forall i | 0 <= i < |lines| :: NoAngles(lines[i]) }

  // The text of the lines from a position on, and up to and including a position.
  function TextFrom(lines: seq<string>, line: nat, column: nat): string
    requires line < |lines| && column <= |lines[line]|
  {
    lines[line][column..] + Flat(lines[line + 1..])
  }

  function TextTo(lines: seq<string>, line: nat, column: nat): string
    requires line < |lines| && column < |lines[line]|
  {
    Flat(lines[..line]) + lines[line][..column + 1]
  }

  lemma {:induction false} MoreKeepsOpen(s: string, stack: seq<char>)
    requires stack != [] && Scan(s, stack).More?
    ensures Scan(s, stack).stack != []
    decreases |s|
  {
    if s != "" {
      if IsOpen(s[0]) {
        MoreKeepsOpen(s[1..], stack + [s[0]]);
      } else if IsClose(s[0]) {
        MoreKeepsOpen(s[1..], stack[..|stack| - 1]);
      } else {
        MoreKeepsOpen(s[1..], stack);
      }
    }
  }

  // What is left to scan after a line was read with the brackets in open.
  ghost predicate ReadOn(whole: Scanned, open: Option<seq<char>>, rest: string, read: nat) {
    if open.None? then whole == Fail else open.value != [] && whole == AdvanceBy(Scan(rest, open.value), read)
  }

  lemma ReadLine(line: string, from: nat, rest: string, stack: seq<char>)
    requires from <= |line| && (stack != [] || (from < |line| && IsOpen(line[from])))
    ensures var r := Scan(line[from..], stack);
            && (r.Found? ==> Scan(line[from..] + rest, stack) == r)
            && (!r.Found? ==> ReadOn(Scan(line[from..] + rest, stack), if r.More? then Some(r.stack) else None, rest, |line| - from))
  {
    ScanSplit(line[from..], rest, stack);
    if stack != [] {
      if Scan(line[from..], stack).More? { MoreKeepsOpen(line[from..], stack); }
    } else {
      var c := line[from];
      assert line[from..][1..] == line[from + 1..] && [] + [c] == [c];
      assert Scan(line[from..], []) == Advance(Scan(line[from + 1..], [c]));
      if Scan(line[from + 1..], [c]).More? { MoreKeepsOpen(line[from + 1..], [c]); }
    }
  }

  lemma ReadNextLine(whole: Scanned, lines: seq<string>, k: nat, open: seq<char>, read: nat)
    requires k < |lines| && ReadOn(whole, Some(open), Flat(lines[k..]), read)
    ensures var r := Scan(lines[k], open);
            && (r.Found? ==> whole == Found(read + r.consumed))
            && (!r.Found? ==> ReadOn(whole, if r.More? then Some(r.stack) else None, Flat(lines[k + 1..]), read + |lines[k]|))
  {
    FlatFrom(lines, k);
    assert lines[k][0..] == lines[k];
    ReadLine(lines[k], 0, Flat(lines[k + 1..]), open);
  }

  // ---------- positions ----------

  // A column just past a character, and the column of a character.
  predicate EndAt(lines: seq<string>, line: nat, column: nat) { line < |lines| && 0 < column <= |lines[line]| }

  predicate CharAt(lines: seq<string>, line: nat, column: nat) { line < |lines| && column < |lines[line]| }

  // The text from the character at one position up to just before another position.
  function Between(lines: seq<string>, line: nat, column: nat, endLine: nat, endColumn: nat): string
    requires CharAt(lines, line, column) && EndAt(lines, endLine, endColumn)
  {
    var a, b := Offset(lines, line, column), Offset(lines, endLine, endColumn);
    if a < b <= |Flat(lines)| then Flat(lines)[a..b] else ""
  }

  lemma TextCuts(lines: seq<string>, line: nat, column: nat)
    requires CharAt(lines, line, column)
    ensures var a, text := Offset(lines, line, column), Flat(lines);
            && a < |text| && text[a] == lines[line][column]
            && text[a..] == TextFrom(lines, line, column) && text[..a + 1] == TextTo(lines, line, column)
  {
    FlatCut(lines, line);
    FlatFrom(lines, line);
    hide Flat;
    CutAt(Flat(lines[..line]), lines[line], Flat(lines[line + 1..]), column);
  }

  lemma CutAt(before: string, line: string, after: string, column: nat)
    requires column < |line|
    ensures var a, text := |before| + column, before + (line + after);
            && a < |text| && text[a] == line[column]
            && text[a..] == line[column..] + after && text[..a + 1] == before + line[..column + 1]
  {
  }

  lemma {:induction false} OffsetMonotone(lines: seq<string>, a: nat, b: nat)
    requires a <= b <= |lines|
    ensures Offset(lines, a, 0) <= Offset(lines, b, 0)
    decreases b - a
  {
    if a < b {
      FlatTo(lines, b - 1);
      OffsetMonotone(lines, a, b - 1);
    }
  }

  lemma EndOffsetInjective(lines: seq<string>, line: nat, column: nat, line': nat, column': nat)
    requires EndAt(lines, line, column) && EndAt(lines, line', column')
    requires Offset(lines, line, column) == Offset(lines, line', column')
    ensures line == line' && column == column'
  {
    if line < line' {
      FlatTo(lines, line);
      OffsetMonotone(lines, line + 1, line');
    } else if line' < line {
      FlatTo(lines, line');
      OffsetMonotone(lines, line' + 1, line);
    }
  }

  // A scan from an opening bracket found exactly the end that the bracketed word has.
  lemma ForwardAt(lines: seq<string>, line: nat, column: nat, endLine: nat, endColumn: nat)
    requires CharAt(lines, line, column) && EndAt(lines, endLine, endColumn)
    ensures Bracketed(Between(lines, line, column, endLine, endColumn)) <==>
            && IsOpen(lines[line][column])
            && Scan(TextFrom(lines, line, column), []).Found?
            && Offset(lines, endLine, endColumn) == Offset(lines, line, column) + Scan(TextFrom(lines, line, column), []).consumed
  {
    hide Scan, Flat, Mirrored, TextFrom, TextTo, Between, Offset, Bracketed, IsOpen, IsClose;
    var a, b, text := Offset(lines, line, column), Offset(lines, endLine, endColumn), Flat(lines);
    EndIsBehind(lines, endLine, endColumn);
    TextCuts(lines, line, column);
    TextCuts(lines, endLine, endColumn - 1);
    BetweenIs(lines, line, column, endLine, endColumn);
    NotBracketed();
    ConsumesSome(TextFrom(lines, line, column), []);
    if a < b {
      ForwardInvertsBackward(text, a, b);
    }
  }

  lemma BackwardAt(lines: seq<string>, line: nat, column: nat, endLine: nat, endColumn: nat)
    requires CharAt(lines, line, column) && EndAt(lines, endLine, endColumn)
    ensures Bracketed(Between(lines, line, column, endLine, endColumn)) <==>
            && IsClose(lines[endLine][endColumn - 1])
            && Scan(Mirrored(TextTo(lines, endLine, endColumn - 1)), []).Found?
            && Offset(lines, endLine, endColumn) ==
               Offset(lines, line, column) + Scan(Mirrored(TextTo(lines, endLine, endColumn - 1)), []).consumed
  {
    hide Scan, Flat, Mirrored, TextFrom, TextTo, Between, Offset, Bracketed, IsOpen, IsClose;
    var a, b, text := Offset(lines, line, column), Offset(lines, endLine, endColumn), Flat(lines);
    EndIsBehind(lines, endLine, endColumn);
    TextCuts(lines, line, column);
    TextCuts(lines, endLine, endColumn - 1);
    BetweenIs(lines, line, column, endLine, endColumn);
    NotBracketed();
    ConsumesSome(Mirrored(TextTo(lines, endLine, endColumn - 1)), []);
    if a < b {
      ForwardInvertsBackward(text, a, b);
    }
  }

  lemma EndIsBehind(lines: seq<string>, endLine: nat, endColumn: nat)
    requires EndAt(lines, endLine, endColumn)
    ensures endColumn > 0 && CharAt(lines, endLine, endColumn - 1)
    ensures Offset(lines, endLine, endColumn) == Offset(lines, endLine, endColumn - 1) + 1
  {
  }

  lemma BetweenIs(lines: seq<string>, line: nat, column: nat, endLine: nat, endColumn: nat)
    requires CharAt(lines, line, column) && EndAt(lines, endLine, endColumn)
    ensures var a, b, text := Offset(lines, line, column), Offset(lines, endLine, endColumn), Flat(lines);
            Between(lines, line, column, endLine, endColumn) == if a < b <= |text| then text[a..b] else ""
  {
  }

  lemma NotBracketed()
    ensures !Bracketed("")
  {
  }

  lemma {:induction false} ConsumesSome(s: string, stack: seq<char>)
    ensures Scan(s, stack).Found? ==> Scan(s, stack).consumed > 0
  {
  }

  // ---------- matching over several lines ----------

  // Where a bracket is looked for: at one of four characters, unless a '<' looks like an operator.
  predicate Closable(line: string, pos: nat)
    requires pos < |line|
  {
    (IsOpen(line[pos]) || line[pos] == '<') && !(line[pos] == '<' && pos + 1 < |line| && line[pos + 1] in {'<', '='})
  }

  // The position just past the closing bracket, given how the scan of a line ended.
  function CloseOn(closed: Closed, lines: seq<string>, line: nat): Option<(nat, nat)>
    decreases |lines| - line
  {
    match closed
    case ClosedAt(column) => Some((line, column))
    case Failed => None
    case StillOpen(stack) =>
      if stack == [] || line + 1 >= |lines| then None else CloseOn(CloseLine(lines[line + 1], 0, stack), lines, line + 1)
  }

  // None when there is no bracket at pos or it is not closed.
  function CloseOver(lines: seq<string>, lineNum: nat, pos: nat): Option<(nat, nat)>
    requires CharAt(lines, lineNum, pos)
  {
    if Closable(lines[lineNum], pos) then CloseOn(CloseLine(lines[lineNum], pos, []), lines, lineNum) else None
  }

  // Without angle brackets: what is left to scan after a line decides where the scan of the whole text ends.
  lemma {:induction false} CloseOnIsScan(closed: Closed, lines: seq<string>, line: nat, whole: Scanned, read: nat)
    requires line < |lines| && AllNoAngles(lines)
    requires match closed
             case ClosedAt(column) => 0 < column <= |lines[line]| && |lines[line]| <= column + read && whole == Found(column + read - |lines[line]|)
             case Failed => whole == Fail
             case StillOpen(stack) => '<' !in stack && ReadOn(whole, Some(stack), Flat(lines[line + 1..]), read)
    ensures CloseOn(closed, lines, line).Some? <==> whole.Found?
    ensures var end := CloseOn(closed, lines, line);
            end.Some? ==>
              && EndAt(lines, end.value.0, end.value.1)
              && Offset(lines, end.value.0, end.value.1) + read == Offset(lines, line + 1, 0) + whole.consumed
    decreases |lines| - line
  {
    hide Scan, CloseLine, EndsInOperator;
    FlatTo(lines, line);
    if closed.StillOpen? {
      if line + 1 < |lines| {
        var text := lines[line + 1];
        ReadNextLine(whole, lines, line + 1, closed.stack, read);
        CloseLineIsScan(text, 0, closed.stack);
        assert text[0..] == text;
        FlatTo(lines, line + 1);
        CloseOnIsScan(CloseLine(text, 0, closed.stack), lines, line + 1, whole, read + |text|);
      } else {
        ReadAll(whole, Some(closed.stack), Flat(lines[line + 1..]), read);
      }
    }
  }

  lemma CloseOverIsScan(lines: seq<string>, lineNum: nat, pos: nat)
    requires CharAt(lines, lineNum, pos) && AllNoAngles(lines)
    ensures var end, scanned := CloseOver(lines, lineNum, pos), Scan(TextFrom(lines, lineNum, pos), []);
            && (end.Some? <==> IsOpen(lines[lineNum][pos]) && scanned.Found?)
            && (end.Some? ==>
                  && EndAt(lines, end.value.0, end.value.1)
                  && Offset(lines, end.value.0, end.value.1) == Offset(lines, lineNum, pos) + scanned.consumed)
  {
    var line := lines[lineNum];
    assert NoAngles(line);
    if IsOpen(line[pos]) {
      hide Scan, CloseLine, EndsInOperator;
      ReadLine(line, pos, Flat(lines[lineNum + 1..]), []);
      CloseLineIsScan(line, pos, []);
      FlatTo(lines, lineNum);
      CloseOnIsScan(CloseLine(line, pos, []), lines, lineNum, Scan(TextFrom(lines, lineNum, pos), []), |line| - pos);
    }
  }

  lemma ReadAll(whole: Scanned, open: Option<seq<char>>, rest: string, read: nat)
    requires ReadOn(whole, open, rest, read) && (open.Some? ==> rest == "")
    ensures !whole.Found?
  {
  }

  lemma ReadLineBack(whole: Scanned, lines: seq<string>, line: nat, pos: nat)
    requires CharAt(lines, line, pos) && IsClose(lines[line][pos])
    requires whole == Scan(Mirrored(TextTo(lines, line, pos)), [])
    ensures MirroredStack([]) == []
    ensures var r := Scan(Mirrored(lines[line][..pos + 1]), []);
            && (r.Found? ==> whole == r)
            && (!r.Found? ==> ReadOn(whole, if r.More? then Some(r.stack) else None, Mirrored(Flat(lines[..line])), pos + 1))
  {
    var seg, rest := Mirrored(lines[line][..pos + 1]), Mirrored(Flat(lines[..line]));
    MirrorAppend(Flat(lines[..line]), lines[line][..pos + 1]);
    assert seg[0] == Mirror(lines[line][pos]);
    assert seg[0..] == seg;
    hide Mirrored;
    ReadLine(seg, 0, rest, []);
  }

  lemma ReadPreviousLine(whole: Scanned, lines: seq<string>, k: nat, open: seq<char>, read: nat)
    requires k < |lines| && ReadOn(whole, Some(open), Mirrored(Flat(lines[..k + 1])), read)
    ensures lines[k][..|lines[k]|] == lines[k]
    ensures var r := Scan(Mirrored(lines[k]), open);
            && (r.Found? ==> whole == Found(read + r.consumed))
            && (!r.Found? ==> ReadOn(whole, if r.More? then Some(r.stack) else None, Mirrored(Flat(lines[..k])), read + |lines[k]|))
  {
    var seg, rest := Mirrored(lines[k]), Mirrored(Flat(lines[..k]));
    FlatTo(lines, k);
    MirrorAppend(Flat(lines[..k]), lines[k]);
    hide Mirrored;
    assert seg[0..] == seg;
    ReadLine(seg, 0, rest, open);
  }

  lemma NothingBefore(lines: seq<string>)
    ensures Mirrored(Flat(lines[..0])) == ""
  {
  }

  lemma OffsetIs(lines: seq<string>, k: nat, column: nat)
    requires k < |lines|
    ensures Offset(lines, k, column) == Offset(lines, k, 0) + column
    ensures Offset(lines, k + 1, 0) == Offset(lines, k, 0) + |lines[k]|
  {
    FlatTo(lines, k);
  }

  // Where the backward scan stands before a line: these brackets are open, and so much has been read.
  ghost predicate ReadBack(whole: Scanned, open: Option<seq<char>>, lines: seq<string>, line: nat, read: nat)
    requires line <= |lines|
  {
    ReadOn(whole, MirroredOpen(open), Mirrored(Flat(lines[..line])), read)
  }

  // One more line read backwards: the start is in it, or the scan goes on before it.
  lemma ReadBackNext(whole: Scanned, lines: seq<string>, line: nat, open: seq<char>, read: nat, startPos: int, newStack: Option<seq<char>>)
    requires line < |lines| && ReadBack(whole, Some(open), lines, line + 1, read)
    requires match Scan(Mirrored(lines[line][..|lines[line]|]), MirroredStack(open))
             case Found(n) => startPos == |lines[line]| - n && 0 <= startPos < |lines[line]|
             case Fail => startPos == -1 && newStack == None
             case More(more) => startPos == -1 && newStack.Some? && more == MirroredStack(newStack.value)
    ensures startPos > -1 ==> whole == Found(read + |lines[line]| - startPos)
    ensures startPos == -1 ==> ReadBack(whole, newStack, lines, line, read + |lines[line]|)
  {
    ReadPreviousLine(whole, lines, line, MirroredStack(open), read);
    hide Scan, Mirrored, Flat;
  }

  lemma ReadBackFirst(whole: Scanned, lines: seq<string>, line: nat, pos: nat, startPos: int, newStack: Option<seq<char>>)
    requires CharAt(lines, line, pos) && IsClose(lines[line][pos]) && whole == Scan(Mirrored(TextTo(lines, line, pos)), [])
    requires match Scan(Mirrored(lines[line][..pos + 1]), MirroredStack([]))
             case Found(n) => startPos == pos + 1 - n && 0 <= startPos <= pos
             case Fail => startPos == -1 && newStack == None
             case More(more) => startPos == -1 && newStack.Some? && more == MirroredStack(newStack.value)
    ensures startPos > -1 ==> whole == Found(pos + 1 - startPos)
    ensures startPos == -1 ==> ReadBack(whole, newStack, lines, line, pos + 1)
  {
    ReadLineBack(whole, lines, line, pos);
    hide Scan, Mirrored, Flat, TextTo;
  }

  lemma ReadBackAll(whole: Scanned, open: Option<seq<char>>, lines: seq<string>, line: nat, read: nat)
    requires line <= |lines| && ReadBack(whole, open, lines, line, read)
    ensures open.Some? ==> open.value != []
    ensures open.None? || line == 0 ==> !whole.Found?
  {
    if line == 0 {
      NothingBefore(lines);
    }
    if open.None? || line == 0 {
      ReadAll(whole, MirroredOpen(open), Mirrored(Flat(lines[..line])), read);
    }
  }

  // The position of the opening bracket; None when there is no closing bracket at pos or it is not opened.
  method OpenByScan(lines: seq<string>, lineNum: nat, pos: nat) returns (start: Option<(nat, nat)>)
    requires CharAt(lines, lineNum, pos) && AllNoAngles(lines)
    ensures start.Some? <==> IsClose(lines[lineNum][pos]) && Scan(Mirrored(TextTo(lines, lineNum, pos)), []).Found?
    ensures start.Some? ==>
              && CharAt(lines, start.value.0, start.value.1)
              && Offset(lines, lineNum, pos + 1) ==
                 Offset(lines, start.value.0, start.value.1) + Scan(Mirrored(TextTo(lines, lineNum, pos)), []).consumed
  {
    hide Scan, NoAngles, Mirrored, MirroredStack, TextTo, IsClose, Offset, ReadBack;
    if !IsClose(lines[lineNum][pos]) {
      return None;
    }
    ghost var whole := Scan(Mirrored(TextTo(lines, lineNum, pos)), []);
    var line := lineNum;
    var startPos, open := FindStartOfExpressionInLine(lines[line], pos, []);
    ReadBackFirst(whole, lines, line, pos, startPos, open);
    OffsetIs(lines, line, pos + 1);
    if startPos > -1 {
      OffsetIs(lines, line, startPos);
      return Some((line, startPos));
    }
    ghost var read: nat := pos + 1;
    while open.Some? && open.value != [] && line > 0
      invariant line <= lineNum
      invariant Offset(lines, line, 0) + read == Offset(lines, lineNum, pos + 1)
      invariant ReadBack(whole, open, lines, line, read)
      decreases line
    {
      line := line - 1;
      OffsetIs(lines, line, 0);
      ghost var before := open.value;
      startPos, open := FindStartOfExpressionInLine(lines[line], |lines[line]| - 1, open.value);
      ReadBackNext(whole, lines, line, before, read, startPos, open);
      if startPos > -1 {
        OffsetIs(lines, line, startPos);
        return Some((line, startPos));
      }
      read := read + |lines[line]|;
    }
    ReadBackAll(whole, open, lines, line, read);
    return None;
  }

  function MirroredOpen(open: Option<seq<char>>): Option<seq<char>> {
    if open.Some? then Some(MirroredStack(open.value)) else None
  }

  // What the forward scan found is the end at (line, column) exactly if the text up to there is a bracketed word.
  lemma EndIs(lines: seq<string>, lineNum: nat, pos: nat, end: Option<(nat, nat)>, line: nat, column: nat)
    requires CharAt(lines, lineNum, pos) && EndAt(lines, line, column)
    requires end.Some? <==> IsOpen(lines[lineNum][pos]) && Scan(TextFrom(lines, lineNum, pos), []).Found?
    requires end.Some? ==>
               && EndAt(lines, end.value.0, end.value.1)
               && Offset(lines, end.value.0, end.value.1) ==
                  Offset(lines, lineNum, pos) + Scan(TextFrom(lines, lineNum, pos), []).consumed
    ensures end == Some((line, column)) <==> Bracketed(Between(lines, lineNum, pos, line, column))
  {
    hide Scan, Bracketed, Between, TextFrom, Offset, IsOpen;
    ForwardAt(lines, lineNum, pos, line, column);
    if end.Some? && Offset(lines, line, column) == Offset(lines, end.value.0, end.value.1) {
      EndOffsetInjective(lines, line, column, end.value.0, end.value.1);
    }
  }

  lemma StartIs(lines: seq<string>, lineNum: nat, pos: nat, start: Option<(nat, nat)>, line: nat, column: nat)
    requires CharAt(lines, lineNum, pos) && CharAt(lines, line, column)
    requires start.Some? <==> IsClose(lines[lineNum][pos]) && Scan(Mirrored(TextTo(lines, lineNum, pos)), []).Found?
    requires start.Some? ==>
               && CharAt(lines, start.value.0, start.value.1)
               && Offset(lines, lineNum, pos + 1) ==
                  Offset(lines, start.value.0, start.value.1) + Scan(Mirrored(TextTo(lines, lineNum, pos)), []).consumed
    ensures start == Some((line, column)) <==> Bracketed(Between(lines, line, column, lineNum, pos + 1))
  {
    hide Scan, Bracketed, Between, TextTo, Offset, IsClose, Mirrored;
    BackwardAt(lines, line, column, lineNum, pos + 1);
    if start.Some? && Offset(lines, line, column) == Offset(lines, start.value.0, start.value.1) {
      StartOffsetInjective(lines, line, column, start.value.0, start.value.1);
    }
  }

  lemma StartOffsetInjective(lines: seq<string>, line: nat, column: nat, line': nat, column': nat)
    requires CharAt(lines, line, column) && CharAt(lines, line', column')
    requires Offset(lines, line, column) == Offset(lines, line', column')
    ensures line == line' && column == column'
  {
    EndOffsetInjective(lines, line, column + 1, line', column' + 1);
  }

  /** Carrying the brackets from line to line finds the end of the scan of the whole text. Without angle brackets
      the end returned is the one end of a bracketed word that starts at pos, and none is returned when there is none. */
  method CloseExpression(lines: seq<string>, lineNum: nat, pos: nat) returns (end: Option<(nat, nat)>)
    requires CharAt(lines, lineNum, pos)
    ensures end == CloseOver(lines, lineNum, pos) && (end.Some? ==> EndAt(lines, end.value.0, end.value.1))
    ensures AllNoAngles(lines) ==>
              forall line: nat, column: nat | EndAt(lines, line, column) ::
                end == Some((line, column)) <==> Bracketed(Between(lines, lineNum, pos, line, column))
  {
    if AllNoAngles(lines) {
      CloseIsExact(lines, lineNum, pos);
    }
    hide Bracketed, Between, AllNoAngles, CloseLine;
    if !Closable(lines[lineNum], pos) {
      return None;
    }
    var line := lineNum;
    var endPos, open := FindEndOfExpressionInLine(lines[line], pos, []);
    ghost var closed := CloseLine(lines[line], pos, []);
    if endPos > -1 {
      return Some((line, endPos));
    }
    while open.Some? && open.value != [] && line + 1 < |lines|
      invariant lineNum <= line < |lines| && closed == (if open.Some? then StillOpen(open.value) else Failed)
      invariant CloseOn(closed, lines, line) == CloseOver(lines, lineNum, pos)
      decreases |lines| - line
    {
      line := line + 1;
      closed := CloseLine(lines[line], 0, open.value);
      endPos, open := FindEndOfExpressionInLine(lines[line], 0, open.value);
      if endPos > -1 {
        return Some((line, endPos));
      }
    }
    return None;
  }

  lemma CloseIsExact(lines: seq<string>, lineNum: nat, pos: nat)
    requires CharAt(lines, lineNum, pos) && AllNoAngles(lines)
    ensures forall line: nat, column: nat | EndAt(lines, line, column) ::
              CloseOver(lines, lineNum, pos) == Some((line, column)) <==> Bracketed(Between(lines, lineNum, pos, line, column))
  {
    CloseOverIsScan(lines, lineNum, pos);
    hide Scan, Bracketed, Between, AllNoAngles, TextFrom, Offset, IsOpen, CloseOver;
    forall line: nat, column: nat | EndAt(lines, line, column)
      ensures CloseOver(lines, lineNum, pos) == Some((line, column)) <==> Bracketed(Between(lines, lineNum, pos, line, column))
    {
      EndIs(lines, lineNum, pos, CloseOver(lines, lineNum, pos), line, column);
    }
  }

  /** The start returned is the one start of a bracketed word that ends with the character at pos. */
  method ReverseCloseExpression(lines: seq<string>, lineNum: nat, pos: nat) returns (start: Option<(nat, nat)>)
    requires CharAt(lines, lineNum, pos) && AllNoAngles(lines)
    ensures start.Some? ==> CharAt(lines, start.value.0, start.value.1)
    ensures forall line: nat, column: nat | CharAt(lines, line, column) ::
              start == Some((line, column)) <==> Bracketed(Between(lines, line, column, lineNum, pos + 1))
  {
    start := OpenByScan(lines, lineNum, pos);
    hide Scan, Bracketed, Between, AllNoAngles, TextTo, Offset, IsClose, Mirrored;
    forall line: nat, column: nat | CharAt(lines, line, column)
      ensures start == Some((line, column)) <==> Bracketed(Between(lines, line, column, lineNum, pos + 1))
    {
      StartIs(lines, lineNum, pos, start, line, column);
    }
  }

  /** Closing and then reversing from the closing bracket comes back to the start. */
  method CloseThenReverse(lines: seq<string>, lineNum: nat, pos: nat) returns (end: Option<(nat, nat)>, start: Option<(nat, nat)>)
    requires CharAt(lines, lineNum, pos) && AllNoAngles(lines)
    ensures end.Some? ==> start == Some((lineNum, pos))
  {
    hide Bracketed, Between;
    end := CloseExpression(lines, lineNum, pos);
    start := None;
    if end.Some? {
      start := ReverseCloseExpression(lines, end.value.0, end.value.1 - 1);
    }
  }

  /** Reversing and then closing from the opening bracket comes back to just past the end. */
  method ReverseThenClose(lines: seq<string>, lineNum: nat, pos: nat) returns (start: Option<(nat, nat)>, end: Option<(nat, nat)>)
    requires CharAt(lines, lineNum, pos) && AllNoAngles(lines)
    ensures start.Some? ==> end == Some((lineNum, pos + 1))
  {
    hide Bracketed, Between;
    start := ReverseCloseExpression(lines, lineNum, pos);
    end := None;
    if start.Some? {
      end := CloseExpression(lines, start.value.0, start.value.1);
    }
  }
}
