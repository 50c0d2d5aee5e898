/** The parser of a node's CPU list (src/sysinfo/host/static/node_cpu.cpp, lines 238-267). */
module CpuList {
  import opened Wrappers
  import opened Decimals

  // ---------- the code, on one window of the list ----------

  function Range(a: int, b: int): (r: set<int>)
    ensures forall j :: j in r <==> a <= j <= b
    decreases b - a + 1
  {
    if b < a then {} else Range(a, b - 1) + {b}
  }

  function Stoi(s: string): Option<int> {
    match ScanNumber(s)
    case None => None
    case Some((v, _)) => Some(v)
  }

  // The position of the first dash, or the length.
  function FindDash(s: string): (d: nat)
    ensures d <= |s| && '-' !in s[..d] && (d < |s| ==> s[d] == '-')
  {
    if s == "" || s[0] == '-' then 0
    else
      var d := FindDash(s[1..]);
      assert s[..d + 1] == [s[0]] + s[1..][..d];
      d + 1
  }

  // The CPUs one window adds; None when a number is missing and stoi throws.
  function Insert(window: string): Option<set<int>> {
    var d := FindDash(window);
    if d < |window| then
      match (Stoi(window[..d]), Stoi(window[d + 1..]))
      case (Some(a), Some(b)) => Some(Range(a, b))
      case _ => None
    else
      match Stoi(window)
      case Some(v) => Some({v})
      case None => None
  }

  // The substring that starts at beg and has length cnt - which is the index where the segment ends.
  function Window(s: string, beg: nat, cnt: nat): string
    requires beg <= |s|
  {
    if beg + cnt <= |s| then s[beg..beg + cnt] else s[beg..]
  }

  // The windows the index loop looks at, from the segment that starts at beg, having read up to cnt.
  function Windows(s: string, beg: nat, cnt: nat): seq<string>
    requires beg <= cnt
    decreases |s| - cnt
  {
    if cnt >= |s| then []
    else if s[cnt] == ',' || cnt + 1 == |s| then
      var end := if cnt + 1 == |s| then cnt + 1 else cnt;
      [Window(s, beg, end)] + Windows(s, end + 1, end + 1)
    else Windows(s, beg, cnt + 1)
  }

  // Adds the CPUs of the windows in turn.
  function InsertAll(all: set<int>, windows: seq<string>): Option<set<int>>
    decreases |windows|
  {
    if windows == [] then Some(all)
    else
      match Insert(windows[0])
      case None => None
      case Some(more) => InsertAll(all + more, windows[1..])
  }

  method InsertWindow(window: string) returns (cpus: Option<set<int>>)
    ensures cpus == Insert(window)
  {
    var cnt2 := 0;
    while cnt2 < |window|
      invariant cnt2 <= |window| && '-' !in window[..cnt2]
    {
      if window[cnt2] == '-' {
        FirstDash(window, cnt2);
        var cpuBeg, cpuEnd := Stoi(window[..cnt2]), Stoi(window[cnt2 + 1..]);
        if cpuBeg.None? || cpuEnd.None? {
          return None;
        }
        var added := {};
        var j := cpuBeg.value;
        while j < cpuEnd.value + 1
          invariant added == Range(cpuBeg.value, j - 1) && (cpuBeg.value <= j <= cpuEnd.value + 1 || (j == cpuBeg.value > cpuEnd.value))
        {
          added := added + {j};
          j := j + 1;
        }
        return Some(added);
      }
      assert window[..cnt2 + 1] == window[..cnt2] + [window[cnt2]];
      cnt2 := cnt2 + 1;
    }
    FirstDash(window, cnt2);
    var v := Stoi(window);
    return if v.Some? then Some({v.value}) else None;
  }

  lemma {:induction false} FirstDash(s: string, d: nat)
    requires d <= |s| && '-' !in s[..d] && (d < |s| ==> s[d] == '-')
    ensures FindDash(s) == d
  {
    if d > 0 {
      assert s[..d][0] == s[0] && s[1..][..d - 1] == s[..d][1..];
      FirstDash(s[1..], d - 1);
    }
  }

  method ParseCpuList(cpulist: string) returns (cpus: Option<set<int>>)
    ensures cpus == InsertAll({}, Windows(cpulist, 0, 0))
  {
    hide Insert, Windows, Window, InsertAll;
    var begIdx, cnt, clsize := 0, 0, |cpulist|;
    var all := {};
    var at := 0;
    while at < clsize
      invariant begIdx <= cnt && at <= cnt && at <= clsize && (at < clsize ==> cnt == at)
      invariant InsertAll(all, Windows(cpulist, begIdx, cnt)) == InsertAll({}, Windows(cpulist, 0, 0))
    {
      var c := cpulist[at];
      WindowsNext(cpulist, begIdx, cnt);
      if c == ',' || cnt + 1 == clsize {
        if cnt + 1 == clsize {
          cnt := cnt + 1;
        }
        var window := Window(cpulist, begIdx, cnt);
        InsertNext(all, window, Windows(cpulist, cnt + 1, cnt + 1));
        var more := InsertWindow(window);
        if more.None? {
          return None;
        }
        all := all + more.value;
        begIdx := cnt + 1;
      }
      cnt := cnt + 1;
      at := at + 1;
    }
    NoWindows(cpulist, begIdx, cnt);
    InsertNone(all);
    return Some(all);
  }

  lemma InsertNext(all: set<int>, window: string, rest: seq<string>)
    ensures InsertAll(all, [window] + rest) ==
            if Insert(window).None? then None else InsertAll(all + Insert(window).value, rest)
  {
    assert ([window] + rest)[1..] == rest;
  }

  lemma InsertNone(all: set<int>)
    ensures InsertAll(all, []) == Some(all)
  {
  }

  lemma WindowsNext(s: string, beg: nat, cnt: nat)
    requires beg <= cnt < |s|
    ensures var end := if cnt + 1 == |s| then cnt + 1 else cnt;
            Windows(s, beg, cnt) ==
            if s[cnt] == ',' || cnt + 1 == |s| then [Window(s, beg, end)] + Windows(s, end + 1, end + 1)
            else Windows(s, beg, cnt + 1)
  {
  }

  lemma NoWindows(s: string, beg: nat, cnt: nat)
    requires beg <= cnt && |s| <= cnt
    ensures Windows(s, beg, cnt) == []
  {
  }

  // ---------- lists of segments ----------

  datatype Segment = Single(v: nat) | Run(a: nat, b: nat) {
    function Text(): (s: string)
      ensures s != "" && ',' !in s && (Single? ==> Digits(s))
    {
      match this
      case Single(v) => Decimal(v)
      case Run(a, b) => Decimal(a) + "-" + Decimal(b)
    }

    function Cpus(): set<int> {
      match this
      case Single(v) => {v as int}
      case Run(a, b) => Range(a, b)
    }

    function Low(): nat { if Single? then v else a }

    function High(): nat { if Single? then v else b }
  }

  function Text(segments: seq<Segment>): string {
    if segments == [] then ""
    else if |segments| == 1 then segments[0].Text()
    else segments[0].Text() + "," + Text(segments[1..])
  }

  // The CPUs of the segments from a given one on.
  function Listed(segments: seq<Segment>, from: nat): set<int>
    requires from <= |segments|
    decreases |segments| - from
  {
    if from == |segments| then {} else segments[from].Cpus() + Listed(segments, from + 1)
  }

  // What follows a segment in the list.
  function After(segments: seq<Segment>, k: nat): string
    requires k < |segments|
  {
    if k + 1 == |segments| then "" else "," + Text(segments[k + 1..])
  }

  // Where a segment starts.
  function Start(segments: seq<Segment>, k: nat): nat
    requires k <= |segments|
  {
    if k == 0 then 0 else Start(segments, k - 1) + |segments[k - 1].Text()| + 1
  }

  lemma TextHead(segments: seq<Segment>, k: nat)
    requires k < |segments|
    ensures Text(segments[k..]) == segments[k].Text() + After(segments, k)
  {
    hide Segment.Text;
    assert segments[k..][1..] == segments[k + 1..];
    if k + 1 == |segments| {
      assert segments[k].Text() + "" == segments[k].Text();
    }
  }

  lemma {:induction false} TextAt(segments: seq<Segment>, k: nat)
    requires k < |segments|
    ensures var s, start := Text(segments), Start(segments, k);
            start <= |s| && s[start..] == Text(segments[k..])
    decreases k
  {
    var s := Text(segments);
    hide Segment.Text;
    hide Text;
    if k == 0 {
      assert s[0..] == s && segments[0..] == segments;
    } else {
      TextAt(segments, k - 1);
      TextHead(segments, k - 1);
      DropHead(s, Start(segments, k - 1), segments[k - 1].Text(), Text(segments[k..]));
    }
  }

  lemma DropHead(s: string, start: nat, head: string, rest: string)
    requires start <= |s| && s[start..] == head + ("," + rest)
    ensures start + |head| + 1 <= |s| && s[start + |head| + 1..] == rest
  {
    assert s[start + |head| + 1..] == s[start..][|head| + 1..];
  }

  // The window of a segment: from its start, as long as the index of its end.
  function WindowOf(segments: seq<Segment>, k: nat): string
    requires k < |segments|
  {
    UpTo(segments[k].Text() + After(segments, k), Start(segments, k) + |segments[k].Text()|)
  }

  function UpTo(s: string, n: nat): string { if n <= |s| then s[..n] else s }

  lemma {:induction false} WindowsStep(s: string, beg: nat, cnt: nat, end: nat)
    requires beg <= cnt < end <= |s| && ',' !in s[cnt..end] && (end < |s| ==> s[end] == ',' && end + 1 < |s|)
    ensures Windows(s, beg, cnt) == [Window(s, beg, end)] + Windows(s, end + 1, end + 1)
    decreases end - cnt
  {
    assert s[cnt] == s[cnt..end][0];
    if cnt + 1 < end {
      assert s[cnt + 1..end] == s[cnt..end][1..];
      WindowsStep(s, beg, cnt + 1, end);
    } else if cnt + 1 < |s| {
      assert Windows(s, beg, cnt) == Windows(s, beg, cnt + 1);
    }
  }

  // ---------- the windows of a list ----------

  function WindowsOf(segments: seq<Segment>, from: nat): seq<string>
    requires from <= |segments|
    decreases |segments| - from
  {
    if from == |segments| then [] else [WindowOf(segments, from)] + WindowsOf(segments, from + 1)
  }

  lemma {:induction false} WindowsOfText(segments: seq<Segment>, k: nat)
    requires k < |segments|
    ensures Windows(Text(segments), Start(segments, k), Start(segments, k)) == WindowsOf(segments, k)
    decreases |segments| - k
  {
    hide Segment.Text;
    hide Text, Windows, WindowOf, Start;
    var s, end := Text(segments), Start(segments, k) + |segments[k].Text()|;
    FirstWindow(segments, k, s, Start(segments, k), segments[k].Text());
    StartNext(segments, k);
    if k + 1 < |segments| {
      WindowsOfText(segments, k + 1);
    } else {
      NoWindows(s, end + 1, end + 1);
    }
  }

  lemma FirstWindow(segments: seq<Segment>, k: nat, s: string, start: nat, t: string)
    requires k < |segments| && s == Text(segments) && start == Start(segments, k) && t == segments[k].Text()
    ensures Windows(s, start, start) == [WindowOf(segments, k)] + Windows(s, start + |t| + 1, start + |t| + 1)
    ensures k + 1 == |segments| ==> |s| == start + |t|
  {
    hide Segment.Text;
    hide Text, Windows, Window, WindowOf, After, Start, UpTo;
    SegmentText(segments, k);
    AfterIs(segments, k);
    StringWindow(s, start, t, After(segments, k));
    WindowOfIs(segments, k);
  }

  lemma SegmentText(segments: seq<Segment>, k: nat)
    requires k < |segments|
    ensures var s, start := Text(segments), Start(segments, k);
            start <= |s| && s[start..] == segments[k].Text() + After(segments, k)
  {
    hide *;
    TextAt(segments, k);
    TextHead(segments, k);
  }

  lemma StartNext(segments: seq<Segment>, k: nat)
    requires k < |segments|
    ensures Start(segments, k + 1) == Start(segments, k) + |segments[k].Text()| + 1
  {
  }

  lemma AfterIs(segments: seq<Segment>, k: nat)
    requires k < |segments|
    ensures var rest := After(segments, k); if k + 1 == |segments| then rest == "" else |rest| > 1 && rest[0] == ','
  {
    if k + 1 < |segments| {
      TextNonempty(segments[k + 1..]);
    }
  }

  lemma StringWindow(s: string, start: nat, t: string, rest: string)
    requires start <= |s| && s[start..] == t + rest && t != "" && ',' !in t
    requires rest == "" || (|rest| > 1 && rest[0] == ',')
    ensures var end := start + |t|;
            && Windows(s, start, start) == [UpTo(t + rest, end)] + Windows(s, end + 1, end + 1)
            && (rest == "" ==> |s| == end)
  {
    SegmentAt(s, start, t, rest);
    hide Windows, Window;
    WindowsStep(s, start, start, start + |t|);
    WindowCut(s, start, start + |t|, t + rest);
  }

  lemma SegmentAt(s: string, start: nat, t: string, rest: string)
    requires start <= |s| && s[start..] == t + rest && ',' !in t && (rest != "" ==> rest[0] == ',')
    ensures start + |t| <= |s| && ',' !in s[start..start + |t|] && |s| == start + |t| + |rest|
    ensures rest != "" ==> s[start + |t|] == ','
  {
    assert s[start..start + |t|] == t;
    if rest != "" {
      assert s[start + |t|] == s[start..][|t|];
    }
  }

  lemma TextNonempty(segments: seq<Segment>)
    requires segments != []
    ensures Text(segments) != ""
  {
  }

  lemma WindowOfIs(segments: seq<Segment>, k: nat)
    requires k < |segments|
    ensures WindowOf(segments, k) ==
            UpTo(segments[k].Text() + After(segments, k), Start(segments, k) + |segments[k].Text()|)
  {
    hide Segment.Text;
    hide Text, After, Start, UpTo;
  }

  lemma WindowCut(s: string, start: nat, n: nat, rest: string)
    requires start <= |s| && s[start..] == rest
    ensures Window(s, start, n) == UpTo(rest, n)
  {
    if start + n <= |s| {
      assert s[start..start + n] == s[start..][..n];
    }
  }

  // ---------- what each window adds ----------

  // The part of a segment's window that lies behind the segment: as long as the segment's start index.
  function Tail(segments: seq<Segment>, k: nat): string
    requires k < |segments|
  {
    UpTo(After(segments, k), Start(segments, k))
  }

  lemma WindowTail(segments: seq<Segment>, k: nat)
    requires k < |segments|
    ensures WindowOf(segments, k) == segments[k].Text() + Tail(segments, k)
    ensures Tail(segments, k) == "" || Tail(segments, k)[0] == ','
  {
    AfterIs(segments, k);
    UpToAppend(segments[k].Text(), After(segments, k), Start(segments, k));
  }

  lemma UpToAppend(t: string, rest: string, n: nat)
    ensures UpTo(t + rest, n + |t|) == t + UpTo(rest, n)
  {
  }

  lemma StoiDecimal(n: nat, rest: string)
    requires rest == "" || !IsDigit(rest[0])
    ensures Stoi(Decimal(n) + rest) == Some(n)
  {
    ScanDigits(Decimal(n), rest);
    DecimalValue(n);
  }

  lemma NoDashInDigits(s: string)
    requires Digits(s)
    ensures '-' !in s
  {
  }

  lemma InsertDash(left: string, right: string)
    requires '-' !in left
    ensures Insert(left + "-" + right) ==
            if Stoi(left).Some? && Stoi(right).Some? then Some(Range(Stoi(left).value, Stoi(right).value)) else None
  {
    var w := left + "-" + right;
    hide Stoi;
    assert w[..|left|] == left && w[|left| + 1..] == right;
    FirstDash(w, |left|);
  }

  lemma InsertRun(a: nat, b: nat, rest: string)
    requires rest == "" || rest[0] == ','
    ensures Insert(Decimal(a) + "-" + Decimal(b) + rest) == Some(Range(a, b))
  {
    hide Insert, Stoi, Decimal, Digits, Range;
    NoDashInDigits(Decimal(a));
    StoiDecimal(a, "");
    StoiDecimal(b, rest);
    InsertRunText(Decimal(a), Decimal(b), rest);
  }

  lemma InsertRunText(left: string, right: string, rest: string)
    requires '-' !in left && Stoi(left + "").Some? && Stoi(right + rest).Some?
    ensures Insert(left + "-" + right + rest) == Some(Range(Stoi(left + "").value, Stoi(right + rest).value))
  {
    hide Insert, Stoi, Range;
    assert left + "" == left;
    assert left + "-" + (right + rest) == left + "-" + right + rest;
    InsertDash(left, right + rest);
  }

  // The number behind the first dash of a tail.
  function AfterDash(tail: string): Option<int>
    requires '-' in tail
  {
    var d := FindDash(tail);
    if d < |tail| then Stoi(tail[d + 1..]) else None
  }

  lemma InsertSingle(v: nat, rest: string)
    requires rest == "" || rest[0] == ','
    ensures Insert(Decimal(v) + rest) ==
            if '-' !in rest then Some({v as int})
            else if AfterDash(rest).Some? then Some(Range(v, AfterDash(rest).value)) else None
  {
    hide Insert, Stoi, Decimal, Digits, Range, FindDash;
    NoDashInDigits(Decimal(v));
    StoiDecimal(v, rest);
    if '-' in rest {
      var d := SplitAtDash(rest);
      assert rest[..d] == "" || rest[..d][0] == rest[0];
      StoiDecimal(v, rest[..d]);
      InsertDash(Decimal(v) + rest[..d], rest[d + 1..]);
      RegroupDash(Decimal(v), rest, d);
    } else {
      InsertPlain(Decimal(v) + rest);
    }
  }

  lemma SplitAtDash(s: string) returns (d: nat)
    requires '-' in s
    ensures d == FindDash(s) && d < |s| && s[d] == '-' && '-' !in s[..d]
  {
    d := FindDash(s);
    assert s[..|s|] == s;
  }

  lemma RegroupDash(left: string, s: string, d: nat)
    requires d < |s| && s[d] == '-'
    ensures left + s[..d] + "-" + s[d + 1..] == left + s
  {
    assert s == s[..d] + "-" + s[d + 1..];
  }

  lemma InsertPlain(s: string)
    requires '-' !in s
    ensures Insert(s) == if Stoi(s).Some? then Some({Stoi(s).value}) else None
  {
    assert s[..|s|] == s;
    FirstDash(s, |s|);
  }

  // The window of a single CPU either holds no dash or happens to read the CPU's own number after it.
  predicate Harmless(segments: seq<Segment>, k: nat)
    requires k < |segments|
  {
    segments[k].Single? && '-' in Tail(segments, k) ==> AfterDash(Tail(segments, k)) == Some(segments[k].v)
  }

  lemma WindowAdds(segments: seq<Segment>, k: nat)
    requires k < |segments|
    ensures Insert(WindowOf(segments, k)) ==
            match segments[k] {
              case Run(a, b) => Some(Range(a, b))
              case Single(v) =>
                if '-' !in Tail(segments, k) then Some({v as int})
                else if AfterDash(Tail(segments, k)).Some? then Some(Range(v, AfterDash(Tail(segments, k)).value)) else None
            }
  {
    hide Insert, Decimal, WindowOf, Tail, AfterDash;
    WindowTail(segments, k);
    match segments[k] {
      case Run(a, b) => InsertRun(a, b, Tail(segments, k));
      case Single(v) => InsertSingle(v, Tail(segments, k));
    }
  }

  // The same number is the same range.
  lemma HarmlessAdds(segments: seq<Segment>, k: nat)
    requires k < |segments| && Harmless(segments, k)
    ensures Insert(WindowOf(segments, k)) == Some(segments[k].Cpus())
  {
    hide Insert, WindowOf, Tail, AfterDash;
    WindowAdds(segments, k);
    if segments[k].Single? {
      assert Range(segments[k].v, segments[k].v) == {segments[k].v as int};
    }
  }

  // ---------- when the parser is exact ----------

  // What the index loop makes of the text of a list.
  function Parsed(segments: seq<Segment>): Option<set<int>> { InsertAll({}, Windows(Text(segments), 0, 0)) }

  lemma {:induction false} HarmlessAll(segments: seq<Segment>, from: nat, all: set<int>)
    requires from <= |segments| && forall k | from <= k < |segments| :: Harmless(segments, k)
    ensures InsertAll(all, WindowsOf(segments, from)) == Some(all + Listed(segments, from))
    decreases |segments| - from
  {
    hide Insert, WindowOf, Harmless;
    hide Segment.Cpus;
    if from < |segments| {
      HarmlessAdds(segments, from);
      InsertNext(all, WindowOf(segments, from), WindowsOf(segments, from + 1));
      HarmlessAll(segments, from + 1, all + segments[from].Cpus());
      assert all + segments[from].Cpus() + Listed(segments, from + 1) == all + (segments[from].Cpus() + Listed(segments, from + 1));
    } else {
      assert all + {} == all;
    }
  }

  // No single CPU other than the first segment is followed later by a run.
  predicate NoRunAfterSingle(segments: seq<Segment>) {
    forall i, j | 1 <= i < j < |segments| && segments[i].Single? :: segments[j].Single?
  }

  lemma {:induction false} NoDashInSingles(segments: seq<Segment>)
    requires forall k | 0 <= k < |segments| :: segments[k].Single?
    ensures '-' !in Text(segments)
  {
    if segments != [] {
      NoDashInDigits(segments[0].Text());
      NoDashInSingles(segments[1..]);
    }
  }

  predicate AllHarmless(segments: seq<Segment>) { forall k | 0 <= k < |segments| :: Harmless(segments, k) }

  lemma HarmlessIsExact(segments: seq<Segment>)
    requires AllHarmless(segments)
    ensures Parsed(segments) == Some(Listed(segments, 0))
  {
    if segments == [] {
      assert Windows(Text([]), 0, 0) == [];
    } else {
      ParsedWindows(segments);
      HarmlessAll(segments, 0, {});
      assert {} + Listed(segments, 0) == Listed(segments, 0);
    }
  }

  lemma NoRunAfterSingleIsHarmless(segments: seq<Segment>)
    requires NoRunAfterSingle(segments)
    ensures AllHarmless(segments)
  {
    forall k | 0 <= k < |segments| ensures Harmless(segments, k) {
      SingleIsHarmless(segments, k);
    }
  }

  /** The parser adds exactly the listed CPUs when no single CPU after the first segment precedes a run. */
  lemma ParsedExact(segments: seq<Segment>)
    requires NoRunAfterSingle(segments)
    ensures Parsed(segments) == Some(Listed(segments, 0))
  {
    hide *;
    NoRunAfterSingleIsHarmless(segments);
    HarmlessIsExact(segments);
  }

  lemma ParsedWindows(segments: seq<Segment>)
    requires segments != []
    ensures Parsed(segments) == InsertAll({}, WindowsOf(segments, 0))
  {
    hide InsertAll, Windows, WindowsOf, Text;
    WindowsOfText(segments, 0);
  }

  lemma SingleIsHarmless(segments: seq<Segment>, k: nat)
    requires k < |segments| && NoRunAfterSingle(segments)
    ensures Harmless(segments, k)
  {
    hide Text, AfterDash;
    if segments[k].Single? {
      if k == 0 {
        assert Tail(segments, k) == "";
      } else if k + 1 < |segments| {
        NoDashInSingles(segments[k + 1..]);
        assert '-' !in After(segments, k);
      }
    }
  }

  // ---------- exactly when, on the lists the kernel writes ----------

  // Ascending segments that do not touch.
  predicate Canonical(segments: seq<Segment>) {
    && (forall k | 0 <= k < |segments| :: segments[k].Low() <= segments[k].High())
    && (forall i, j | 0 <= i < j < |segments| :: segments[i].High() + 1 < segments[j].Low())
  }

  lemma {:induction false} ListedIs(segments: seq<Segment>, from: nat, x: int)
    requires from <= |segments|
    ensures x in Listed(segments, from) <==> exists k :: from <= k < |segments| && segments[k].Low() <= x <= segments[k].High()
    decreases |segments| - from
  {
    if from < |segments| {
      ListedIs(segments, from + 1, x);
    }
  }

  // The windows from a given one on: the result holds what each adds, and nothing else.
  lemma {:induction false} ResultHolds(segments: seq<Segment>, from: nat, all: set<int>, r: set<int>)
    requires from <= |segments| && InsertAll(all, WindowsOf(segments, from)) == Some(r)
    ensures all <= r
    ensures forall k | from <= k < |segments| :: Adds(segments, k, r)
    ensures forall x | x in r :: x in all || exists k :: from <= k < |segments| && AddsCpu(segments, k, x)
    decreases |segments| - from
  {
    hide Insert, WindowOf;
    if from < |segments| {
      InsertNext(all, WindowOf(segments, from), WindowsOf(segments, from + 1));
      var more := Insert(WindowOf(segments, from)).value;
      ResultHolds(segments, from + 1, all + more, r);
      forall x | x in r && x !in all ensures exists k :: from <= k < |segments| && AddsCpu(segments, k, x) {
        if x in more { assert AddsCpu(segments, from, x); }
      }
    }
  }

  ghost predicate Adds(segments: seq<Segment>, k: nat, r: set<int>)
    requires k < |segments|
  {
    Insert(WindowOf(segments, k)).Some? && Insert(WindowOf(segments, k)).value <= r
  }

  ghost predicate AddsCpu(segments: seq<Segment>, k: nat, x: int)
    requires k < |segments|
  {
    Insert(WindowOf(segments, k)).Some? && x in Insert(WindowOf(segments, k)).value
  }

  lemma GapAfter(segments: seq<Segment>, k: nat)
    requires k < |segments| && Canonical(segments)
    ensures segments[k].High() + 1 !in Listed(segments, 0)
  {
    var x := segments[k].High() + 1;
    ListedIs(segments, 0, x);
    forall j | 0 <= j < |segments| ensures !(segments[j].Low() <= x <= segments[j].High()) {
      assert j < k ==> segments[j].High() + 1 < segments[k].Low();
    }
  }

  // A window that stays within a canonical list adds at most its own CPUs.
  lemma StaysWithin(segments: seq<Segment>, k: nat)
    requires k < |segments| && Canonical(segments) && Adds(segments, k, Listed(segments, 0))
    ensures forall x | AddsCpu(segments, k, x) :: segments[k].Low() <= x <= segments[k].High()
  {
    hide Tail, AfterDash, WindowOf, Insert;
    WindowAdds(segments, k);
    if segments[k].Single? && '-' in Tail(segments, k) {
      var v: int, e := segments[k].v, AfterDash(Tail(segments, k)).value;
      GapAfter(segments, k);
      assert e > v ==> v + 1 in Range(v, e);
    }
  }

  /** On an ascending list of segments that do not touch, the parser is exact precisely when every window of a
      single CPU is harmless: it holds no dash, or reads the CPU's own number behind the first dash. */
  lemma ParsedExactly(segments: seq<Segment>)
    requires Canonical(segments)
    ensures Parsed(segments) == Some(Listed(segments, 0)) <==> AllHarmless(segments)
  {
    if AllHarmless(segments) {
      HarmlessIsExact(segments);
    }
    if Parsed(segments) == Some(Listed(segments, 0)) && segments != [] {
      ParsedWindows(segments);
      hide WindowsOf, InsertAll, Parsed, Harmless;
      ResultHolds(segments, 0, {}, Listed(segments, 0));
      forall k | 0 <= k < |segments| ensures Harmless(segments, k) {
        ExactIsHarmless(segments, k);
      }
    }
  }

  lemma ExactIsHarmless(segments: seq<Segment>, k: nat)
    requires k < |segments| && Canonical(segments)
    requires forall j | 0 <= j < |segments| :: Adds(segments, j, Listed(segments, 0))
    requires forall x | x in Listed(segments, 0) :: exists j :: 0 <= j < |segments| && AddsCpu(segments, j, x)
    ensures Harmless(segments, k)
  {
    hide Tail, AfterDash, WindowOf, Insert;
    if segments[k].Single? && '-' in Tail(segments, k) {
      var v: int := segments[k].v;
      ListedIs(segments, 0, v);
      assert v in Listed(segments, 0);
      var j :| 0 <= j < |segments| && AddsCpu(segments, j, v);
      StaysWithin(segments, j);
      assert j == k;
      WindowAdds(segments, k);
      StaysWithin(segments, k);
      var e := AfterDash(Tail(segments, k)).value;
      assert v in Range(v, e);
      assert e > v ==> AddsCpu(segments, k, v + 1);
    }
  }

  const RUN_AFTER_SINGLE := [Run(0, 1), Single(3), Run(5, 6)]

  lemma ExampleTail()
    ensures Text(RUN_AFTER_SINGLE[2..]) == "5-6" && Tail(RUN_AFTER_SINGLE, 1) == ",5-6"
  {
    var segments := RUN_AFTER_SINGLE;
    assert segments[2..] == [Run(5, 6)];
    assert Text(segments[2..]) == Decimal(5) + "-" + Decimal(6);
    assert Start(segments, 1) == 4;
  }

  lemma ExampleText()
    ensures Text(RUN_AFTER_SINGLE) == "0-1,3,5-6"
  {
    ExampleTail();
    var segments := RUN_AFTER_SINGLE;
    assert segments[1..] == [Single(3), Run(5, 6)] && segments[1..][1..] == segments[2..];
    assert segments[0].Text() == "0-1" && segments[1].Text() == "3";
    hide Segment.Text;
    assert Text(segments[1..]) == "3" + "," + "5-6";
  }

  lemma ExampleHarmful()
    ensures !Harmless(RUN_AFTER_SINGLE, 1)
  {
    ExampleTail();
    var tail := ",5-6";
    FirstDash(tail, 2);
    assert tail[3..] == Decimal(6) + "";
    StoiDecimal(6, "");
    hide Stoi, FindDash, Decimal, Tail;
    assert '-' == tail[2];
  }

  /** The list 0-1,3,5-6 is not read as the CPUs it lists. */
  lemma RunAfterSingleIsMisread()
    ensures Text(RUN_AFTER_SINGLE) == "0-1,3,5-6" && Parsed(RUN_AFTER_SINGLE) != Some(Listed(RUN_AFTER_SINGLE, 0))
  {
    ExampleText();
    ExampleHarmful();
    hide Text, Parsed, Listed, Harmless;
    ParsedExactly(RUN_AFTER_SINGLE);
  }
}
