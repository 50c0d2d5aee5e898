/** Google Test's fallback regular-expression engine (tools/gtest/src/gtest-port.cc).

    A C string is a sequence without NUL; reading position |s| yields the terminator. */
module SimpleRegex {
  import opened Wrappers

  const SIZE_MAX := 0xFFFF_FFFF_FFFF_FFFF

  // A C string and its terminator fit in memory.
  type CString = s: string | '\0' !in s && |s| <= SIZE_MAX - 1

  function CharAt(s: string, i: nat): char
    requires i <= |s|
  {
    if i < |s| then s[i] else '\0'
  }

  // ---------- character classification ----------

  const FORM_FEED := '\U{0C}'
  const VERTICAL_TAB := '\U{0B}'

  predicate IsAsciiDigit(ch: char) { '0' <= ch <= '9' }

  predicate IsAsciiPunct(ch: char) {
    ch in {'^', '-', '!', '"', '#', '$', '%', '&', '\'', '(', ')', '*', '+', ',', '.', '/', ':', ';', '<', '=', '>',
           '?', '@', '[', '\\', ']', '_', '`', '{', '|', '}', '~'}
  }

  predicate IsRepeat(ch: char) { ch in {'?', '*', '+'} }

  predicate IsAsciiWhiteSpace(ch: char) { ch in {' ', FORM_FEED, '\n', '\r', '\t', VERTICAL_TAB} }

  predicate IsAsciiWordChar(ch: char) {
    'a' <= ch <= 'z' || 'A' <= ch <= 'Z' || '0' <= ch <= '9' || ch == '_'
  }

  predicate IsUnsupported(ch: char) { ch in {'(', ')', '[', ']', '{', '}', '|'} }

  predicate IsValidEscape(c: char) {
    IsAsciiPunct(c) || c in {'d', 'D', 'f', 'n', 'r', 's', 'S', 't', 'v', 'w', 'W'}
  }

  predicate AtomMatchesChar(escaped: bool, patternChar: char, ch: char) {
    if escaped then
      match patternChar
      case 'd' => IsAsciiDigit(ch)
      case 'D' => !IsAsciiDigit(ch)
      case 'f' => ch == FORM_FEED
      case 'n' => ch == '\n'
      case 'r' => ch == '\r'
      case 's' => IsAsciiWhiteSpace(ch)
      case 'S' => !IsAsciiWhiteSpace(ch)
      case 't' => ch == '\t'
      case 'v' => ch == VERTICAL_TAB
      case 'w' => IsAsciiWordChar(ch)
      case 'W' => !IsAsciiWordChar(ch)
      case _ => IsAsciiPunct(patternChar) && patternChar == ch
    else
      (patternChar == '.' && ch != '\n') || patternChar == ch
  }

  predicate InRange(lo: char, ch: char, hi: char) { lo <= ch <= hi }

  ghost function Range(lo: char, hi: char): iset<char> { iset ch | InRange(lo, ch, hi) }

  ghost function AllBut(chars: iset<char>): iset<char> { iset ch: char | ch !in chars }

  ghost const Digits := Range('0', '9')
  ghost const Spaces := iset{' ', FORM_FEED, '\n', '\r', '\t', VERTICAL_TAB}
  ghost const WordChars := Range('a', 'z') + Range('A', 'Z') + Digits + iset{'_'}

  // The set of characters an atom stands for: the classes \d \s \w, their complements, the
  // control characters, '.' for anything but a newline, and every other character for itself.
  ghost function AtomClass(escaped: bool, c: char): iset<char> {
    if !escaped then
      if c == '.' then AllBut(iset{'\n'}) else iset{c}
    else
      match c
      case 'd' => Digits
      case 'D' => AllBut(Digits)
      case 's' => Spaces
      case 'S' => AllBut(Spaces)
      case 'w' => WordChars
      case 'W' => AllBut(WordChars)
      case 'f' => iset{FORM_FEED}
      case 'n' => iset{'\n'}
      case 'r' => iset{'\r'}
      case 't' => iset{'\t'}
      case 'v' => iset{VERTICAL_TAB}
      case _ => iset{c}
  }

  lemma AtomMatchesItsClass(escaped: bool, c: char, ch: char)
    requires escaped ==> IsValidEscape(c)
    ensures AtomMatchesChar(escaped, c, ch) <==> ch in AtomClass(escaped, c)
  {
  }

  /** The control characters and classes by their codes. */
  lemma EscapesByCode(ch: char)
    ensures AtomMatchesChar(true, 't', ch) <==> ch as int == 9
    ensures AtomMatchesChar(true, 'n', ch) <==> ch as int == 10
    ensures AtomMatchesChar(true, 'v', ch) <==> ch as int == 11
    ensures AtomMatchesChar(true, 'f', ch) <==> ch as int == 12
    ensures AtomMatchesChar(true, 'r', ch) <==> ch as int == 13
    ensures AtomMatchesChar(true, 's', ch) <==> 9 <= ch as int <= 13 || ch as int == 32
    ensures AtomMatchesChar(true, 'd', ch) <==> 48 <= ch as int <= 57
    ensures AtomMatchesChar(true, 'w', ch) <==>
              48 <= ch as int <= 57 || 65 <= ch as int <= 90 || 97 <= ch as int <= 122 || ch as int == 95
    ensures AtomMatchesChar(false, '.', ch) <==> ch as int != 10
  {
  }

  // ---------- abstract syntax, concrete syntax and meaning ----------

  datatype Repeat = Once | Optional | Star | Plus

  datatype Item = Item(escaped: bool, c: char, repeat: Repeat) {
    predicate Valid() {
      if escaped then IsValidEscape(c) else c !in {'\0', '\\', '^', '$'} && !IsUnsupported(c) && !IsRepeat(c)
    }

    function Render(): string {
      (if escaped then ['\\', c] else [c]) +
      match repeat
      case Once => ""
      case Optional => "?"
      case Star => "*"
      case Plus => "+"
    }

    // The item denotes the words of Min() or more atoms, of at most one for Once and Optional.
    function Min(): nat { if repeat == Once || repeat == Plus then 1 else 0 }

    ghost predicate Accepts(w: string) {
      && Min() <= |w|
      && (repeat == Once || repeat == Optional ==> |w| <= 1)
      && forall i | 0 <= i < |w| :: AtomMatchesChar(escaped, c, w[i])
    }
  }

  // atStart: a leading '^'; atEnd: a trailing '$'.
  datatype Regex = Regex(atStart: bool, items: seq<Item>, atEnd: bool) {
    predicate Valid() { forall it <- items :: it.Valid() }

    function Render(): string {
      if atStart then "^" + RenderTail(items, atEnd) else RenderTail(items, atEnd)
    }

    ghost predicate MatchesSpan(s: string, i: nat, j: nat)
      requires i <= j <= |s|
    {
      InLanguage(items, s[i..j]) && (atStart ==> i == 0) && (atEnd ==> j == |s|)
    }

    ghost predicate MatchesPart(s: string) {
      exists i: nat, j: nat | i <= j <= |s| :: MatchesSpan(s, i, j)
    }

    ghost predicate MatchesWhole(s: string) { InLanguage(items, s) }
  }

  function RenderTail(items: seq<Item>, atEnd: bool): string {
    if items == [] then if atEnd then "$" else ""
    else items[0].Render() + RenderTail(items[1..], atEnd)
  }

  // Concatenation of the items' languages.
  ghost predicate InLanguage(items: seq<Item>, w: string) {
    if items == [] then w == "" else
    exists k | 0 <= k <= |w| :: items[0].Accepts(w[..k]) && InLanguage(items[1..], w[k..])
  }

  ghost predicate MatchesHead(items: seq<Item>, atEnd: bool, s: string) {
    exists k | 0 <= k <= |s| :: InLanguage(items, s[..k]) && (atEnd ==> k == |s|)
  }

  // ---------- reading a regex back ----------

  function ReadRepeat(s: string): Repeat {
    if s == "" then Once else
    match s[0]
    case '?' => Optional
    case '*' => Star
    case '+' => Plus
    case _ => Once
  }

  function ReadItem(s: string): (r: Option<(Item, string)>)
    ensures r.Some? ==> |r.value.1| < |s| && s == r.value.0.Render() + r.value.1 && r.value.0.Valid()
  {
    if s == "" then None
    else
      var escaped := s[0] == '\\';
      if escaped && |s| == 1 then None
      else
        var n := if escaped then 2 else 1;
        var rep := ReadRepeat(s[n..]);
        var item := Item(escaped, s[n - 1], rep);
        if !item.Valid() then None
        else Some((item, s[n + (if rep == Once then 0 else 1)..]))
  }

  function ReadItems(s: string): (r: Option<(seq<Item>, bool)>)
    ensures r.Some? ==>
              && s == RenderTail(r.value.0, r.value.1)
              && forall it <- r.value.0 :: it.Valid()
  {
    if s == "" then Some(([], false))
    else if s == "$" then Some(([], true))
    else
      match ReadItem(s)
      case None => None
      case Some((item, rest)) =>
        match ReadItems(rest)
        case None => None
        case Some((items, atEnd)) =>
          assert ([item] + items)[1..] == items;
          Some(([item] + items, atEnd))
  }

  function Read(s: string): Option<Regex> {
    var atStart := s != "" && s[0] == '^';
    match ReadItems(if atStart then s[1..] else s)
    case None => None
    case Some((items, atEnd)) => Some(Regex(atStart, items, atEnd))
  }

  lemma ReadItemRender(item: Item, rest: string)
    requires item.Valid()
    requires item.repeat == Once ==> rest == "" || !IsRepeat(rest[0])
    ensures ReadItem(item.Render() + rest) == Some((item, rest))
  {
    var s := item.Render() + rest;
    var n := if item.escaped then 2 else 1;
    assert item.repeat == Once ==> s[n..] == rest;
    assert item.repeat != Once ==> s[n + 1..] == rest;
  }

  // A valid item starts with neither an anchor nor a repetition character.
  lemma ItemHead(item: Item)
    requires item.Valid()
    ensures item.Render()[0] !in {'^', '$'} && !IsRepeat(item.Render()[0])
  {
  }

  lemma TailHead(items: seq<Item>, atEnd: bool)
    requires forall it <- items :: it.Valid()
    ensures var tail := RenderTail(items, atEnd);
            tail != "" ==> (tail[0] != '$' || tail == "$") && tail[0] != '^' && !IsRepeat(tail[0])
  {
    if items != [] {
      ItemHead(items[0]);
      assert RenderTail(items, atEnd)[0] == items[0].Render()[0];
    }
  }

  lemma {:induction false} ReadItemsRender(items: seq<Item>, atEnd: bool)
    requires forall it <- items :: it.Valid()
    ensures ReadItems(RenderTail(items, atEnd)) == Some((items, atEnd))
  {
    if items != [] {
      var rest := RenderTail(items[1..], atEnd);
      ReadItemsRender(items[1..], atEnd);
      TailHead(items[1..], atEnd);
      ItemHead(items[0]);
      ReadItemRender(items[0], rest);
      assert items == [items[0]] + items[1..];
    }
  }

  lemma ReadRender(re: Regex)
    requires re.Valid()
    ensures Read(re.Render()) == Some(re)
  {
    var tail := RenderTail(re.items, re.atEnd);
    ReadItemsRender(re.items, re.atEnd);
    TailHead(re.items, re.atEnd);
    assert ("^" + tail)[1..] == tail;
  }

  lemma RenderRead(s: string)
    requires Read(s).Some?
    ensures Read(s).value.Valid() && Read(s).value.Render() == s
  {
    if s != "" && s[0] == '^' {
      assert s == "^" + s[1..];
    }
  }

  /** Reading inverts rendering: the concrete syntax is unambiguous, and Read accepts
      exactly the renderings of well-formed regexes. */
  lemma ReadInvertsRender(s: string, re: Regex)
    ensures Read(s) == Some(re) <==> re.Valid() && re.Render() == s
  {
    if re.Valid() && re.Render() == s { ReadRender(re); }
    if Read(s) == Some(re) { RenderRead(s); }
  }

  // ---------- the validator ----------

  // What the validator's loop still has to check from a position past the first.
  predicate SuffixValid(s: string, prevRepeatable: bool) {
    if s == "" then true
    else if s[0] == '\\' then |s| > 1 && IsValidEscape(s[1]) && SuffixValid(s[2..], true)
    else
      && s[0] != '^' && (s[0] == '$' ==> |s| == 1) && !IsUnsupported(s[0])
      && (IsRepeat(s[0]) ==> prevRepeatable)
      && SuffixValid(s[1..], s[0] !in {'^', '$', '?', '*', '+'})
  }

  // The string after the repetition character of the item whose atom was just read.
  function AfterRepeat(rest: string): string {
    if rest != "" && IsRepeat(rest[0]) then rest[1..] else rest
  }

  lemma ReadItemsStep(s: string, n: nat)
    requires s != "" && s != "$" && n == (if s[0] == '\\' then 2 else 1)
    ensures ReadItems(s).Some? <==>
              n <= |s| && Item(n == 2, s[n - 1], Once).Valid() && ReadItems(AfterRepeat(s[n..])).Some?
  {
    if n <= |s| {
      assert AfterRepeat(s[n..]) == s[n + (if ReadRepeat(s[n..]) == Once then 0 else 1)..];
    }
  }

  lemma SuffixValidStep(s: string, n: nat)
    requires s != "" && s != "$" && '\0' !in s && n == (if s[0] == '\\' then 2 else 1)
    ensures SuffixValid(s, false) <==>
              n <= |s| && Item(n == 2, s[n - 1], Once).Valid() && SuffixValid(s[n..], true)
  {
    if n == 1 {
      assert Item(false, s[0], Once).Valid() ==> s[0] !in {'^', '$', '?', '*', '+'};
    }
  }

  lemma AfterRepeatSuffix(rest: string)
    ensures SuffixValid(rest, true) == SuffixValid(AfterRepeat(rest), false)
  {
  }

  lemma {:induction false} SuffixValidIsReadable(s: string)
    requires '\0' !in s
    ensures SuffixValid(s, false) == ReadItems(s).Some?
  {
    if s == "$" {
      assert SuffixValid(s[1..], false);
    } else if s != "" {
      var n := if s[0] == '\\' then 2 else 1;
      ReadItemsStep(s, n);
      SuffixValidStep(s, n);
      if n <= |s| {
        AfterRepeatSuffix(s[n..]);
        SuffixValidIsReadable(AfterRepeat(s[n..]));
      }
    }
  }

  // What the validator's loop still has to check from index i on; an anchor at index 0 is let through.
  predicate RestValid(s: string, i: nat, prevRepeatable: bool)
    requires i <= |s|
  {
    SuffixValid(if i == 0 then Body(s) else s[i..], prevRepeatable)
  }

  function Body(s: string): string { if s != "" && s[0] == '^' then s[1..] else s }

  predicate Refused(s: string, i: nat, prevRepeatable: bool)
    requires i < |s|
  {
    || (s[i] == '^' && i > 0)
    || (s[i] == '$' && i + 1 < |s|)
    || IsUnsupported(s[i])
    || (IsRepeat(s[i]) && !prevRepeatable)
  }

  lemma EscapeStep(s: string, i: nat, prevRepeatable: bool)
    requires i < |s| && s[i] == '\\'
    ensures RestValid(s, i, prevRepeatable) <==> i + 1 < |s| && IsValidEscape(s[i + 1]) && RestValid(s, i + 2, true)
  {
    hide IsValidEscape;
    assert s[0..] == s;
    if i + 1 < |s| {
      assert s[i..][2..] == s[i + 2..];
    }
  }

  lemma PlainStep(s: string, i: nat, prevRepeatable: bool)
    requires i < |s| && s[i] != '\\' && (i == 0 ==> !prevRepeatable)
    ensures RestValid(s, i, prevRepeatable) <==>
            !Refused(s, i, prevRepeatable) && RestValid(s, i + 1, s[i] !in {'^', '$', '?', '*', '+'})
  {
    assert s[0..] == s;
    assert s[i..][1..] == s[i + 1..];
  }

  lemma RestOfNone(s: string, prevRepeatable: bool)
    ensures RestValid(s, |s|, prevRepeatable)
  {
  }

  // Before the first character the loop has to check what reading back checks.
  lemma RestIsReadable(s: string)
    requires '\0' !in s
    ensures RestValid(s, 0, false) <==> Read(s).Some?
  {
    SuffixValidIsReadable(Body(s));
  }

  /** The validator accepts exactly the strings that read back as a regex. */
  method ValidateRegex(regex: Option<CString>) returns (isValid: bool)
    ensures isValid <==> regex.Some? && Read(regex.value).Some?
  {
    if regex.None? {
      return false;
    }
    var s: string := regex.value;
    RestIsReadable(s);
    hide SuffixValid, RestValid, Read, IsValidEscape, IsUnsupported, IsRepeat;
    isValid := true;
    var prevRepeatable := false;
    var i := 0;
    while CharAt(s, i) != '\0'
      invariant i <= |s| && (i == 0 ==> !prevRepeatable)
      invariant isValid && RestValid(s, i, prevRepeatable) <==> Read(s).Some?
      decreases |s| - i
    {
      if s[i] == '\\' {
        EscapeStep(s, i, prevRepeatable);
        i := i + 1;
        if CharAt(s, i) == '\0' {
          return false;
        }
        if !IsValidEscape(s[i]) {
          isValid := false;
        }
        prevRepeatable := true;
      } else {
        PlainStep(s, i, prevRepeatable);
        var ch := s[i];
        if ch == '^' && i > 0 {
          isValid := false;
        } else if ch == '$' && CharAt(s, i + 1) != '\0' {
          isValid := false;
        } else if IsUnsupported(ch) {
          isValid := false;
        } else if IsRepeat(ch) && !prevRepeatable {
          isValid := false;
        }
        prevRepeatable := ch !in {'^', '$', '?', '*', '+'};
      }
      i := i + 1;
    }
    RestOfNone(s, prevRepeatable);
  }

  // ---------- which characters are accepted ----------

  /** A regex of one character is accepted exactly if the character is neither a backslash nor a repetition nor one of
      the seven unsupported characters; the anchors are accepted. */
  lemma OneCharacter(c: char)
    requires c != '\0'
    ensures Read([c]).Some? <==> c !in {'\\', '?', '*', '+', '(', ')', '[', ']', '{', '}', '|'}
  {
    RestIsReadable([c]);
    assert [c][1..] == "";
    assert SuffixValid("", true) && SuffixValid("", false);
    assert Body([c]) == if c == '^' then "" else [c];
  }

  /** A backslash before a character is accepted exactly for the eleven letters and the punctuation marks. */
  lemma Escape(c: char)
    requires c != '\0'
    ensures Read(['\\', c]).Some? <==>
              c in {'d', 'D', 'f', 'n', 'r', 's', 'S', 't', 'v', 'w', 'W',
                    '!', '"', '#', '$', '%', '&', '\'', '(', ')', '*', '+', ',', '-', '.', '/', ':', ';', '<', '=', '>', '?', '@',
                    '[', '\\', ']', '^', '_', '`', '{', '|', '}', '~'}
  {
    var s := ['\\', c];
    RestIsReadable(s);
    assert s[2..] == "";
    assert SuffixValid("", true);
    assert Body(s) == s;
  }

  /** A repetition after an unescaped character is accepted exactly if the character is supported and neither an anchor nor a
      repetition itself. */
  lemma Repetition(c: char, r: char)
    requires c != '\0' && r in {'?', '*', '+'}
    requires c != '\\'
    ensures Read([c, r]).Some? <==> c !in {'^', '$', '?', '*', '+', '(', ')', '[', ']', '{', '}', '|'}
  {
    var s := [c, r];
    RestIsReadable(s);
    assert s[1..] == [r] && [r][1..] == "";
    assert SuffixValid("", false) && SuffixValid([r], true) && !SuffixValid([r], false);
    assert Body(s) == if c == '^' then [r] else s;
  }

  // The character at i stands behind an odd number of backslashes.
  predicate EscapedAt(s: string, i: nat)
    requires i < |s|
  {
    i > 0 && s[i - 1] == '\\' && !EscapedAt(s, i - 1)
  }

  lemma {:induction false} EscapedBehind(s: string, n: nat, i: nat)
    requires n <= i < |s| && ((n == 1 && s[0] != '\\') || (n == 2 && s[0] == '\\'))
    ensures EscapedAt(s, i) == EscapedAt(s[n..], i - n)
    decreases i
  {
    if i > n {
      EscapedBehind(s, n, i - 1);
    } else {
      assert !EscapedAt(s, 0) && (n == 2 ==> EscapedAt(s, 1));
    }
  }

  lemma {:induction false} UnsupportedAreEscaped(s: string, prevRepeatable: bool, i: nat)
    requires SuffixValid(s, prevRepeatable) && i < |s|
    requires s[i] in {'(', ')', '[', ']', '{', '}', '|'} || (s[i] == '$' && i + 1 < |s|) || s[i] == '^'
    ensures EscapedAt(s, i)
    decreases |s|
  {
    if s[0] == '\\' {
      if i >= 2 {
        UnsupportedAreEscaped(s[2..], true, i - 2);
        EscapedBehind(s, 2, i);
      }
    } else if i > 0 {
      UnsupportedAreEscaped(s[1..], s[0] !in {'^', '$', '?', '*', '+'}, i - 1);
      EscapedBehind(s, 1, i);
    }
  }

  /** In an accepted regex each of the seven unsupported characters is escaped, wherever it stands, and so are a '^' that
      is not the first character and a '$' that is not the last. */
  lemma AcceptedEscapes(s: string, i: nat)
    requires '\0' !in s && Read(s).Some? && i < |s|
    requires s[i] in {'(', ')', '[', ']', '{', '}', '|'} || (s[i] == '$' && i + 1 < |s|) || (s[i] == '^' && i > 0)
    ensures EscapedAt(s, i)
  {
    RestIsReadable(s);
    if s[0] == '^' {
      assert i > 0;
      UnsupportedAreEscaped(s[1..], false, i - 1);
      EscapedBehind(s, 1, i);
    } else {
      UnsupportedAreEscaped(s, false, i);
    }
  }

  // ---------- the matcher ----------

  ghost predicate Takes(item: Item, s: string, k: nat) { k <= |s| && item.Accepts(s[..k]) }

  // A match of item followed by rest splits the string after the item's word.
  lemma MatchesHeadStep(items: seq<Item>, atEnd: bool, s: string)
    requires items != []
    ensures MatchesHead(items, atEnd, s)
       <==> exists k: nat :: Takes(items[0], s, k) && MatchesHead(items[1..], atEnd, s[k..])
  {
    if MatchesHead(items, atEnd, s) {
      var n :| 0 <= n <= |s| && InLanguage(items, s[..n]) && (atEnd ==> n == |s|);
      var k :| 0 <= k <= n && items[0].Accepts(s[..n][..k]) && InLanguage(items[1..], s[..n][k..]);
      assert s[..n][..k] == s[..k] && s[..n][k..] == s[k..][..n - k];
      assert Takes(items[0], s, k);
    }
    if k: nat :| Takes(items[0], s, k) && MatchesHead(items[1..], atEnd, s[k..]) {
      var m :| 0 <= m <= |s[k..]| && InLanguage(items[1..], s[k..][..m]) && (atEnd ==> m == |s[k..]|);
      var n := k + m;
      assert s[..n][..k] == s[..k] && s[..n][k..] == s[k..][..m];
    }
  }

  lemma MatchesHeadNil(atEnd: bool, s: string)
    ensures MatchesHead([], atEnd, s) <==> (atEnd ==> s == "")
  {
    if !atEnd || s == "" {
      assert InLanguage([], s[..0]);
    }
  }

  lemma MatchesHeadOnce(items: seq<Item>, atEnd: bool, s: string)
    requires items != [] && items[0].repeat == Once
    ensures MatchesHead(items, atEnd, s)
       <==> s != "" && AtomMatchesChar(items[0].escaped, items[0].c, s[0]) && MatchesHead(items[1..], atEnd, s[1..])
  {
    MatchesHeadStep(items, atEnd, s);
    assert forall k: nat | Takes(items[0], s, k) :: k == 1 && s[..k][0] == s[0];
    if s != "" && AtomMatchesChar(items[0].escaped, items[0].c, s[0]) {
      assert Takes(items[0], s, 1);
    }
  }

  // What matching the suffix regex of a valid regex at the head of str must decide.
  ghost predicate HeadMatches(regex: string, str: string)
    requires ReadItems(regex).Some?
  {
    MatchesHead(ReadItems(regex).value.0, ReadItems(regex).value.1, str)
  }

  // The same, for an item in front of regex.
  ghost predicate ItemHeadMatches(item: Item, regex: string, str: string)
    requires ReadItems(regex).Some?
  {
    MatchesHead([item] + ReadItems(regex).value.0, ReadItems(regex).value.1, str)
  }

  lemma HeadMatchesAnchor(regex: string, str: string)
    requires ReadItems(regex).Some? && (regex == "" || regex[0] == '$')
    ensures HeadMatches(regex, str) <==> regex == "" || str == ""
  {
    MatchesHeadNil(regex == "$", str);
  }

  // The first item of a regex is spelled by its first n characters and a possible repetition.
  lemma HeadMatchesItem(regex: string, n: nat, str: string)
    requires ReadItems(regex).Some? && regex != "" && regex[0] != '$' && n == (if regex[0] == '\\' then 2 else 1)
    ensures n <= |regex|
    ensures var rest := regex[n + (if ReadRepeat(regex[n..]) == Once then 0 else 1)..];
            && ReadItems(rest).Some?
            && (HeadMatches(regex, str) <==>
                ItemHeadMatches(Item(n == 2, regex[n - 1], ReadRepeat(regex[n..])), rest, str))
  {
  }

  lemma HeadMatchesOnce(item: Item, regex: string, str: string)
    requires ReadItems(regex).Some? && item.repeat == Once
    ensures ItemHeadMatches(item, regex, str)
       <==> str != "" && AtomMatchesChar(item.escaped, item.c, str[0]) && HeadMatches(regex, str[1..])
  {
    var items := [item] + ReadItems(regex).value.0;
    assert items[1..] == ReadItems(regex).value.0;
    MatchesHeadOnce(items, ReadItems(regex).value.1, str);
  }

  lemma ItemHeadMatchesStep(item: Item, regex: string, str: string)
    requires ReadItems(regex).Some?
    ensures ItemHeadMatches(item, regex, str)
       <==> exists k: nat :: Takes(item, str, k) && HeadMatches(regex, str[k..])
  {
    var items := [item] + ReadItems(regex).value.0;
    assert items[1..] == ReadItems(regex).value.0;
    MatchesHeadStep(items, ReadItems(regex).value.1, str);
  }

  // Having matched i atoms, i of them are a word of the item if its repetition allows so many.
  lemma TakesMatched(item: Item, s: string, i: nat)
    requires i <= |s| && forall k | 0 <= k < i :: AtomMatchesChar(item.escaped, item.c, s[k])
    ensures Takes(item, s, i) <==> item.Min() <= i && (item.repeat == Once || item.repeat == Optional ==> i <= 1)
  {
    hide AtomMatchesChar;
  }

  // Past the first character that does not match, and past the second for an optional atom, no word ends.
  lemma TakesNoMore(item: Item, s: string, i: nat, k: nat)
    requires i <= |s| && i < k
    requires i == |s| || !AtomMatchesChar(item.escaped, item.c, s[i]) || (item.repeat == Optional && i > 0)
    ensures !Takes(item, s, k)
  {
    hide AtomMatchesChar;
    if k <= |s| {
      assert s[..k][i] == s[i];
    }
  }

  method MatchRepetitionAndRegexAtHead(escaped: bool, c: char, repeat: char, regex: string, str: CString)
    returns (matches: bool)
    requires IsRepeat(repeat) && ReadItems(regex).Some?
    ensures matches <==> ItemHeadMatches(Item(escaped, c, ReadRepeat([repeat])), regex, str)
    decreases |regex|, 1
  {
    ghost var item := Item(escaped, c, ReadRepeat([repeat]));
    ItemHeadMatchesStep(item, regex, str);
    hide AtomMatchesChar, Takes, HeadMatches, ItemHeadMatches, ReadItems;
    var minCount := if repeat == '+' then 1 else 0;
    var maxCount := if repeat == '?' then 1 else SIZE_MAX - 1;
    var i := 0;
    while i <= maxCount
      invariant i <= |str| && i <= maxCount + 1
      invariant forall k | 0 <= k < i :: AtomMatchesChar(escaped, c, str[k])
      invariant forall k | 0 <= k < i :: !(Takes(item, str, k) && HeadMatches(regex, str[k..]))
      decreases maxCount + 1 - i
    {
      TakesMatched(item, str, i);
      if i >= minCount {
        var tailMatches := MatchRegexAtHead(regex, str[i..]);
        if tailMatches {
          return true;
        }
      }
      if CharAt(str, i) == '\0' || !AtomMatchesChar(escaped, c, str[i]) {
        forall k: nat | i < k ensures !Takes(item, str, k) { TakesNoMore(item, str, i, k); }
        return false;
      }
      i := i + 1;
    }
    forall k: nat | 1 < k ensures !Takes(item, str, k) { TakesNoMore(item, str, 1, k); }
    return false;
  }

  /** The matcher terminates and agrees with the denotational semantics: some prefix of str
      (all of it under a final '$') belongs to the language of the items. */
  method MatchRegexAtHead(regex: string, str: CString) returns (matches: bool)
    requires ReadItems(regex).Some?
    ensures matches <==> HeadMatches(regex, str)
    decreases |regex|, 0
  {
    if CharAt(regex, 0) == '\0' {
      HeadMatchesAnchor(regex, str);
      return true;
    }
    if regex[0] == '$' {
      HeadMatchesAnchor(regex, str);
      return CharAt(str, 0) == '\0';
    }
    var escaped := regex[0] == '\\';
    var at := if escaped then 1 else 0;
    HeadMatchesItem(regex, at + 1, str);
    ghost var item := Item(escaped, regex[at], ReadRepeat(regex[at + 1..]));
    if IsRepeat(CharAt(regex, at + 1)) {
      matches := MatchRepetitionAndRegexAtHead(escaped, regex[at], regex[at + 1], regex[at + 2..], str);
    } else {
      HeadMatchesOnce(item, regex[at + 1..], str);
      if CharAt(str, 0) != '\0' && AtomMatchesChar(escaped, regex[at], str[0]) {
        matches := MatchRegexAtHead(regex[at + 1..], str[1..]);
      } else {
        matches := false;
      }
    }
  }

  method MatchRegexAnywhere(regex: Option<string>, str: Option<CString>) returns (matches: bool)
    requires regex.Some? ==> Read(regex.value).Some?
    ensures matches <==> regex.Some? && str.Some? && Read(regex.value).value.MatchesPart(str.value)
  {
    hide MatchesHead, MatchesFrom, ReadItems;
    hide Regex.MatchesPart;
    if regex.None? || str.None? {
      return false;
    }
    var s := str.value;
    ghost var re := Read(regex.value).value;
    if CharAt(regex.value, 0) == '^' {
      matches := MatchRegexAtHead(regex.value[1..], s);
      HeadIsSpanAt(re, s, 0);
      MatchesFromStart(re, s);
      return;
    }
    var i := 0;
    while true
      invariant i <= |s|
      invariant forall k: nat | k < i :: !MatchesFrom(re, s, k)
      decreases |s| - i
    {
      matches := MatchRegexAtHead(regex.value, s[i..]);
      HeadIsSpanAt(re, s, i);
      if matches {
        MatchesFromSome(re, s, i);
        return true;
      }
      if CharAt(s, i) == '\0' {
        break;
      }
      i := i + 1;
    }
    MatchesFromNone(re, s);
    return false;
  }

  ghost predicate MatchesFrom(re: Regex, s: string, i: nat) {
    exists j: nat | i <= j <= |s| :: re.MatchesSpan(s, i, j)
  }

  lemma MatchesFromSome(re: Regex, s: string, i: nat)
    requires MatchesFrom(re, s, i)
    ensures re.MatchesPart(s)
  {
  }

  lemma MatchesFromStart(re: Regex, s: string)
    requires re.atStart
    ensures re.MatchesPart(s) <==> MatchesFrom(re, s, 0)
  {
  }

  lemma MatchesFromNone(re: Regex, s: string)
    requires forall k: nat | k <= |s| :: !MatchesFrom(re, s, k)
    ensures !re.MatchesPart(s)
  {
    if i: nat, j: nat :| i <= j <= |s| && re.MatchesSpan(s, i, j) {
      assert MatchesFrom(re, s, i);
    }
  }

  // Matching at the head of the suffix at i is matching a span that starts at i.
  lemma HeadIsSpanAt(re: Regex, s: string, i: nat)
    requires i <= |s|
    ensures (re.atStart ==> i == 0) ==>
              (MatchesHead(re.items, re.atEnd, s[i..]) <==> MatchesFrom(re, s, i))
  {
    if re.atStart ==> i == 0 {
      if k :| 0 <= k <= |s[i..]| && InLanguage(re.items, s[i..][..k]) && (re.atEnd ==> k == |s[i..]|) {
        assert s[i..][..k] == s[i..i + k];
        assert re.MatchesSpan(s, i, i + k);
      }
      if j: nat :| i <= j <= |s| && re.MatchesSpan(s, i, j) {
        assert s[i..][..j - i] == s[i..j];
      }
    }
  }

  // ---------- the RE class ----------

  function FullPattern(regex: string): string {
    (if regex != "" && regex[0] == '^' then "" else "^") + regex +
    (if regex != "" && regex[|regex| - 1] == '$' then "" else "$")
  }

  // The C string at the start of a buffer.
  function UpToNul(s: string): string { if s == "" || s[0] == '\0' then "" else [s[0]] + UpToNul(s[1..]) }

  lemma {:induction false} TerminatorEnds(s: string, n: nat)
    requires n < |s| && '\0' !in s[..n] && s[n] == '\0'
    ensures UpToNul(s) == s[..n]
    decreases n
  {
    if n > 0 {
      assert s[..n] == [s[0]] + s[1..][..n - 1];
      TerminatorEnds(s[1..], n - 1);
    }
  }

  // Fills the buffer of len + 3 characters; it is read as a C string.
  method BuildFullPattern(regex: CString) returns (full: string)
    ensures full == FullPattern(regex)
  {
    hide UpToNul;
    var len := |regex|;
    var buffer := new char[len + 3];
    var at := 0;
    if CharAt(regex, 0) != '^' {
      buffer[at] := '^';
      at := at + 1;
    }
    ghost var head := buffer[..at];
    forall k | 0 <= k < len {
      buffer[at + k] := regex[k];
    }
    at := at + len;
    assert buffer[..at] == head + regex;
    if len == 0 || regex[len - 1] != '$' {
      buffer[at] := '$';
      at := at + 1;
    }
    ghost var text := buffer[..at];
    assert text == head + regex + (if regex != "" && regex[|regex| - 1] == '$' then "" else "$");
    buffer[at] := '\0';
    assert buffer[..at] == text;
    TerminatorEnds(buffer[..], at);
    full := UpToNul(buffer[..]);
  }

  class RE {
    var pattern: Option<CString>
    var fullPattern: Option<string>  // None is the NULL of an invalid regex
    var isValid: bool

    ghost predicate Valid()
      reads this
    {
      && (isValid <==> pattern.Some? && Read(pattern.value).Some?)
      && fullPattern == if isValid then Some(FullPattern(pattern.value)) else None
    }

    constructor Init(regex: Option<CString>)
      ensures Valid() && pattern == regex
    {
      pattern := regex;
      fullPattern := None;
      isValid := false;
      new;
      isValid := ValidateRegex(regex);
      if !isValid {
        return;
      }
      var full := BuildFullPattern(regex.value);
      fullPattern := Some(full);
    }

    /** True exactly when some substring, anchored as the regex says, is in the language. */
    static method PartialMatch(str: Option<CString>, re: RE) returns (matches: bool)
      requires re.Valid()
      ensures matches <==> re.isValid && str.Some? && Read(re.pattern.value).value.MatchesPart(str.value)
    {
      if !re.isValid {
        return false;
      }
      matches := MatchRegexAnywhere(re.pattern, str);
    }

    /** True exactly when the whole string is in the language - or, for a regex that ends in an
        escaped dollar, when some prefix is. */
    static method FullMatch(str: Option<CString>, re: RE) returns (matches: bool)
      requires re.Valid()
      ensures re.isValid && str.Some? && !EndsInEscapedDollar(re.pattern.value) ==>
                (matches <==> Read(re.pattern.value).value.MatchesWhole(str.value))
      ensures re.isValid && str.Some? && EndsInEscapedDollar(re.pattern.value) ==>
                (matches <==> exists k | 0 <= k <= |str.value| :: Read(re.pattern.value).value.MatchesWhole(str.value[..k]))
      ensures !re.isValid || str.None? ==> !matches
    {
      if !re.isValid {
        return false;
      }
      FullPatternMeaning(re.pattern.value, if str.Some? then str.value else "");
      matches := MatchRegexAnywhere(re.fullPattern, str);
    }
  }

  // ---------- what a full match means ----------

  // The last item is an escaped dollar sign and nothing follows it.
  predicate EndsInEscapedDollar(regex: string)
    requires Read(regex).Some?
  {
    var re := Read(regex).value;
    !re.atEnd && re.items != [] && re.items[|re.items| - 1] == Item(true, '$', Once)
  }

  lemma ItemLast(item: Item)
    requires item.Valid()
    ensures item.Render()[|item.Render()| - 1] == '$' <==> item == Item(true, '$', Once)
  {
  }

  lemma {:induction false} TailAnchor(items: seq<Item>)
    ensures RenderTail(items, true) == RenderTail(items, false) + "$"
  {
    if items != [] {
      TailAnchor(items[1..]);
    }
  }

  lemma {:induction false} LastOfTail(items: seq<Item>)
    requires items != [] && forall it <- items :: it.Valid()
    ensures var tail := RenderTail(items, false);
            && tail != ""
            && (tail[|tail| - 1] == '$' <==> items[|items| - 1] == Item(true, '$', Once))
  {
    var first, rest := items[0].Render(), RenderTail(items[1..], false);
    if |items| > 1 {
      LastOfTail(items[1..]);
      assert (first + rest)[|first + rest| - 1] == rest[|rest| - 1];
    } else {
      ItemLast(items[0]);
      assert first + rest == first;
    }
  }

  // The full pattern denotes the same items anchored at both ends, unless the check of the
  // last character mistook an escaped dollar for the anchor.
  lemma FullPatternReads(regex: string)
    requires Read(regex).Some?
    ensures Read(FullPattern(regex)) == Some(Regex(true, Read(regex).value.items, !EndsInEscapedDollar(regex)))
  {
    var re := Read(regex).value;
    RenderRead(regex);
    FullPatternRenders(re);
    ReadRender(Regex(true, re.items, !EndsInEscapedDollar(regex)));
  }

  lemma FullPatternRenders(re: Regex)
    requires re.Valid()
    ensures var escapedDollar := !re.atEnd && re.items != [] && re.items[|re.items| - 1] == Item(true, '$', Once);
            FullPattern(re.Render()) == "^" + RenderTail(re.items, !escapedDollar)
  {
    TailHead(re.items, re.atEnd);
    FullPatternOfTail(RenderTail(re.items, re.atEnd));
    TailAnchor(re.items);
    if re.items != [] {
      LastOfTail(re.items);
    }
  }

  lemma FullPatternOfTail(tail: string)
    requires tail != "" ==> tail[0] != '^'
    ensures var anchored := "^" + (if tail != "" && tail[|tail| - 1] == '$' then tail else tail + "$");
            FullPattern(tail) == anchored && FullPattern("^" + tail) == anchored
  {
    var s := "^" + tail;
    if tail == "" {
      assert s[|s| - 1] == '^';
    } else {
      assert s[|s| - 1] == tail[|tail| - 1];
    }
    assert "" + tail == tail && "" + s == s;
  }

  lemma FullPatternMeaning(regex: string, s: string)
    requires Read(regex).Some?
    ensures Read(FullPattern(regex)).Some?
    ensures !EndsInEscapedDollar(regex) ==>
              (Read(FullPattern(regex)).value.MatchesPart(s) <==> Read(regex).value.MatchesWhole(s))
    ensures EndsInEscapedDollar(regex) ==>
              (Read(FullPattern(regex)).value.MatchesPart(s) <==>
               exists k | 0 <= k <= |s| :: Read(regex).value.MatchesWhole(s[..k]))
  {
    FullPatternReads(regex);
    var full := Read(FullPattern(regex)).value;
    assert s[0..|s|] == s;
    assert forall k | 0 <= k <= |s| :: s[0..k] == s[..k];
    if Read(regex).value.MatchesWhole(s) {
      assert full.MatchesSpan(s, 0, |s|);
    }
    if EndsInEscapedDollar(regex) {
      if k :| 0 <= k <= |s| && Read(regex).value.MatchesWhole(s[..k]) {
        assert full.MatchesSpan(s, 0, k);
      }
    }
  }

  // A character every valid atom matches, one word of every language.
  function Sample(item: Item): char
    requires item.Valid()
  {
    if item.escaped then
      match item.c
      case 'd' => '0'
      case 'D' => 'a'
      case 'f' => FORM_FEED
      case 'n' => '\n'
      case 'r' => '\r'
      case 's' => ' '
      case 'S' => 'a'
      case 't' => '\t'
      case 'v' => VERTICAL_TAB
      case 'w' => 'a'
      case 'W' => ' '
      case c => c
    else item.c
  }

  lemma SampleMatches(item: Item)
    requires item.Valid()
    ensures AtomMatchesChar(item.escaped, item.c, Sample(item)) && Sample(item) != '\0'
  {
  }

  lemma {:induction false} LanguageInhabited(items: seq<Item>) returns (w: string)
    requires forall it <- items :: it.Valid()
    ensures InLanguage(items, w) && '\0' !in w && |w| <= |RenderTail(items, false)|
  {
    if items == [] {
      w := "";
    } else {
      var tail := LanguageInhabited(items[1..]);
      var head := [Sample(items[0])];
      SampleMatches(items[0]);
      w := head + tail;
      assert w[..1] == head && w[1..] == tail;
    }
  }

  lemma {:induction false} WordEndsInLastAtom(items: seq<Item>, w: string)
    requires items != [] && items[|items| - 1] == Item(true, '$', Once) && InLanguage(items, w)
    ensures w != "" && w[|w| - 1] == '$'
  {
    var k :| 0 <= k <= |w| && items[0].Accepts(w[..k]) && InLanguage(items[1..], w[k..]);
    if |items| == 1 {
      assert w[k..] == "" && w[..k] == w;
      assert AtomMatchesChar(true, '$', w[0]);
    } else {
      WordEndsInLastAtom(items[1..], w[k..]);
    }
  }

  ghost predicate FullMatches(regex: string, s: string) {
    Read(FullPattern(regex)).Some? && Read(FullPattern(regex)).value.MatchesPart(s)
  }

  /** A full match is a match of the whole string, for every string, exactly when the regex
      does not end in an escaped dollar. */
  lemma FullMatchExact(regex: CString)
    requires Read(regex).Some?
    ensures (forall s: CString :: FullMatches(regex, s) <==> Read(regex).value.MatchesWhole(s))
       <==> !EndsInEscapedDollar(regex)
  {
    forall s: CString
      ensures !EndsInEscapedDollar(regex) ==> (FullMatches(regex, s) <==> Read(regex).value.MatchesWhole(s))
    {
      FullPatternMeaning(regex, s);
    }
    if EndsInEscapedDollar(regex) {
      var s := EscapedDollarMismatch(regex);
    }
  }

  // A word of the language followed by one more character.
  lemma EscapedDollarMismatch(regex: CString) returns (s: CString)
    requires Read(regex).Some? && EndsInEscapedDollar(regex)
    ensures FullMatches(regex, s) && !Read(regex).value.MatchesWhole(s)
  {
    var re := Read(regex).value;
    RenderRead(regex);
    s := WordAndMore(re.items);
    FullPatternMeaning(regex, s);
    assert re.MatchesWhole(s[..|s| - 1]);
  }

  lemma WordAndMore(items: seq<Item>) returns (s: string)
    requires forall it <- items :: it.Valid()
    requires items != [] && items[|items| - 1] == Item(true, '$', Once)
    ensures s != "" && '\0' !in s && |s| <= |RenderTail(items, false)|
    ensures InLanguage(items, s[..|s| - 1]) && !InLanguage(items, s)
  {
    TailSplit(items);
    var body := items[..|items| - 1];
    var w := LanguageInhabited(body);
    LanguageAppend(body, Item(true, '$', Once), w, "$");
    s := w + "$!";
    assert s[..|s| - 1] == w + "$";
    if InLanguage(items, s) {
      WordEndsInLastAtom(items, s);
    }
  }

  lemma {:induction false} TailSplit(items: seq<Item>)
    requires items != []
    ensures |RenderTail(items, false)| == |RenderTail(items[..|items| - 1], false)| + |items[|items| - 1].Render()|
    ensures items == items[..|items| - 1] + [items[|items| - 1]]
  {
    if |items| > 1 {
      TailSplit(items[1..]);
      assert items[1..][..|items| - 2] == items[..|items| - 1][1..];
    }
  }

  lemma {:induction false} LanguageAppend(items: seq<Item>, last: Item, w: string, v: string)
    requires InLanguage(items, w) && last.Accepts(v)
    ensures InLanguage(items + [last], w + v)
  {
    var all, u := items + [last], w + v;
    if items == [] {
      assert u[..|v|] == v && u[|v|..] == "" && all[1..] == [];
    } else {
      var k :| 0 <= k <= |w| && items[0].Accepts(w[..k]) && InLanguage(items[1..], w[k..]);
      LanguageAppend(items[1..], last, w[k..], v);
      assert u[..k] == w[..k] && u[k..] == w[k..] + v && all[1..] == items[1..] + [last];
    }
  }
}
