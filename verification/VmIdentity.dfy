/** Start times and ids of VM processes (src/sysinfo/vm/dynamic/vm_base.cpp). */
module VmIdentity {
  import opened Wrappers
  import opened Decimals

  // ---------- the tolerant order of ids ----------

  datatype VmId = VmId(startTimestamp: int, pid: int)

  predicate Close(a: int, b: int) { -2 <= a - b <= 2 }

  predicate Equal(l: VmId, r: VmId) { Close(l.startTimestamp, r.startTimestamp) && l.pid == r.pid }

  // Later start times come first.
  predicate Less(l: VmId, r: VmId) {
    if Close(l.startTimestamp, r.startTimestamp) then l.pid < r.pid else l.startTimestamp - r.startTimestamp > 2
  }

  /** Ids are equal exactly when neither is less than the other. */
  lemma EqualIsIncomparable(l: VmId, r: VmId)
    ensures Equal(l, r) <==> !Less(l, r) && !Less(r, l)
  {
  }

  /** Of two processes started more than two seconds apart the later one comes first, whatever their pids; of two others the
      one with the smaller pid. Times two seconds apart are equal, three are not. */
  lemma LaterComesFirst(l: VmId, r: VmId)
    ensures l.startTimestamp - r.startTimestamp > 2 ==> Less(l, r) && !Less(r, l) && !Equal(l, r)
    ensures -2 <= l.startTimestamp - r.startTimestamp <= 2 ==>
              (Less(l, r) <==> l.pid < r.pid) && (Equal(l, r) <==> l.pid == r.pid)
  {
  }

  ghost predicate CloseIsTransitive(times: iset<int>) {
    forall x, y, z | x in times && y in times && z in times && Close(x, y) && Close(y, z) :: Close(x, z)
  }

  // Less orders the ids with these start times strictly, and being incomparable is an equivalence.
  ghost predicate StrictWeakOrder(times: iset<int>) {
    && (forall a: VmId | a.startTimestamp in times :: !Less(a, a))
    && (forall a: VmId, b: VmId, c: VmId | a.startTimestamp in times && b.startTimestamp in times && c.startTimestamp in times ::
          Less(a, b) && Less(b, c) ==> Less(a, c))
    && (forall a: VmId, b: VmId, c: VmId | a.startTimestamp in times && b.startTimestamp in times && c.startTimestamp in times ::
          Equal(a, b) && Equal(b, c) ==> Equal(a, c))
  }

  /** The order is fit for a map key on all ids with the given start times exactly when being within
      two seconds is transitive on these times. */
  lemma OrderIsWeakExactly(times: iset<int>)
    ensures StrictWeakOrder(times) <==> CloseIsTransitive(times)
  {
    if StrictWeakOrder(times) {
      forall x, y, z | x in times && y in times && z in times && Close(x, y) && Close(y, z) ensures Close(x, z) {
        assert Equal(VmId(x, 0), VmId(y, 0)) && Equal(VmId(y, 0), VmId(z, 0));
        assert Equal(VmId(x, 0), VmId(z, 0));
      }
    }
    if CloseIsTransitive(times) {
      forall a: VmId, b: VmId, c: VmId | a.startTimestamp in times && b.startTimestamp in times && c.startTimestamp in times
        ensures Less(a, b) && Less(b, c) ==> Less(a, c)
      {
        var x, y, z := a.startTimestamp, b.startTimestamp, c.startTimestamp;
        assert Close(x, y) && Close(y, z) ==> Close(x, z);
        assert Close(y, x) && Close(x, z) ==> Close(y, z);
        assert Close(x, z) && Close(z, y) ==> Close(x, y);
      }
    }
  }

  // Three processes started two seconds apart: the first equals the second and the second the third only.
  lemma TwoSecondsApart()
    ensures !StrictWeakOrder(iset{0, 2, 4})
    ensures var a, b, c := VmId(0, 7), VmId(2, 7), VmId(4, 7); Equal(a, b) && Equal(b, c) && !Equal(a, c)
  {
    OrderIsWeakExactly(iset{0, 2, 4});
    assert Close(0, 2) && Close(2, 4) && !Close(0, 4);
  }

  // ---------- elapsed times as ps writes them ----------

  function TwoDigits(n: nat): string
    requires n < 100
  {
    ['0' + (n / 10) as char, '0' + (n % 10) as char]
  }

  // [[dd-]hh:]mm:ss, with any number of leading zeros in front of the days.
  function Spell(days: nat, hours: nat, minutes: nat, seconds: nat, pad: nat): string
    requires hours < 24 && minutes < 60 && seconds < 60
  {
    var short := TwoDigits(minutes) + ":" + TwoDigits(seconds);
    if days > 0 then Zeros(pad) + Decimal(days) + "-" + (TwoDigits(hours) + ":" + short)
    else if hours > 0 then TwoDigits(hours) + ":" + short
    else short
  }

  function Render(elapsed: nat, pad: nat): string {
    var minutes := elapsed / 60;
    var hours := minutes / 60;
    Spell(hours / 24, hours % 24, minutes % 60, elapsed % 60, pad)
  }

  function Count(s: string, c: char): nat {
    if s == "" then 0 else (if s[0] == c then 1 else 0) + Count(s[1..], c)
  }

  // sscanf with a format of numbers joined by the given separators: the numbers converted before
  // the first failure, and 0 for the others.
  function ScanFields(s: string, separators: string): (r: seq<int>)
    ensures |r| == |separators| + 1
    decreases |separators|
  {
    match ScanNumber(s)
    case None => seq(|separators| + 1, _ => 0)
    case Some((v, rest)) =>
      if separators == "" then [v]
      else if rest != "" && rest[0] == separators[0] then [v] + ScanFields(rest[1..], separators[1..])
      else [v] + seq(|separators|, _ => 0)
  }

  /** The seconds before now at which the process started: of every rendered elapsed time, that time. */
  method ElapsedSeconds(etime: string) returns (elapsed: int)
    ensures forall e: nat, pad: nat :: etime == Render(e, pad) ==> elapsed == e
    ensures elapsed == Elapsed(etime)
  {
    forall e: nat, pad: nat | etime == Render(e, pad) ensures Elapsed(etime) == e {
      ElapsedInvertsRender(e, pad);
    }
    hide Render, ScanFields, Count;
    var days, hours, minutes, seconds := 0, 0, 0, 0;
    if Count(etime, '-') > 0 {
      var f := ScanFields(etime, "-::");
      days, hours, minutes, seconds := f[0], f[1], f[2], f[3];
    } else if Count(etime, ':') == 2 {
      var f := ScanFields(etime, "::");
      hours, minutes, seconds := f[0], f[1], f[2];
    } else if Count(etime, ':') == 1 {
      var f := ScanFields(etime, ":");
      minutes, seconds := f[0], f[1];
    }
    elapsed := ((days * 24 + hours) * 60 + minutes) * 60 + seconds;
  }

  function Elapsed(etime: string): int {
    if Count(etime, '-') > 0 then
      var f := ScanFields(etime, "-::"); ((f[0] * 24 + f[1]) * 60 + f[2]) * 60 + f[3]
    else if Count(etime, ':') == 2 then
      var f := ScanFields(etime, "::"); (f[0] * 60 + f[1]) * 60 + f[2]
    else if Count(etime, ':') == 1 then
      var f := ScanFields(etime, ":"); f[0] * 60 + f[1]
    else 0
  }

  // ---------- the round trip ----------

  lemma {:induction false} CountAppend(a: string, b: string, c: char)
    ensures Count(a + b, c) == Count(a, c) + Count(b, c)
  {
    if a == "" {
      assert a + b == b;
    } else {
      assert (a + b)[1..] == a[1..] + b;
      CountAppend(a[1..], b, c);
    }
  }

  lemma {:induction false} CountInDigits(s: string, c: char)
    requires Digits(s) && !IsDigit(c)
    ensures Count(s, c) == 0
  {
    if s != "" {
      CountInDigits(s[1..], c);
    }
  }

  // A number, a separator and more fields.
  lemma ScanOneField(d: string, separator: char, rest: string, separators: string)
    requires d != "" && Digits(d) && !IsDigit(separator) && separators != "" && separators[0] == separator
    ensures ScanFields(d + [separator] + rest, separators) == [Value(d) as int] + ScanFields(rest, separators[1..])
  {
    ScanDigits(d, [separator] + rest);
    assert d + ([separator] + rest) == d + [separator] + rest;
    assert ([separator] + rest)[1..] == rest;
  }

  lemma ScanLastField(d: string)
    requires d != "" && Digits(d)
    ensures ScanFields(d, "") == [Value(d) as int]
  {
    ScanDigits(d, "");
    assert d + "" == d;
  }

  lemma TwoDigitsValue(n: nat)
    requires n < 100
    ensures |TwoDigits(n)| == 2 && Digits(TwoDigits(n)) && Value(TwoDigits(n)) == n
  {
    var s := TwoDigits(n);
    assert s[..1] == [s[0]] && s[..1][..0] == "";
    assert Value(s[..1]) == n / 10;
  }

  // Four, three or two fields of digits, read back.
  lemma ScanShort(m: string, s: string)
    requires m != "" && Digits(m) && s != "" && Digits(s)
    ensures ScanFields(m + ":" + s, ":") == [Value(m) as int, Value(s) as int]
    ensures Count(m + ":" + s, ':') == 1 && Count(m + ":" + s, '-') == 0
  {
    ScanOneField(m, ':', s, ":");
    ScanLastField(s);
    assert ":"[1..] == "";
    CountFields(m, ':', s);
    CountInDigits(s, ':');
    CountInDigits(s, '-');
  }

  lemma CountFields(d: string, separator: char, rest: string)
    requires Digits(d) && (separator == ':' || separator == '-')
    ensures Count(d + [separator] + rest, ':') == (if separator == ':' then 1 else 0) + Count(rest, ':')
    ensures Count(d + [separator] + rest, '-') == (if separator == '-' then 1 else 0) + Count(rest, '-')
  {
    assert [separator][1..] == "";
    CountInDigits(d, ':');
    CountInDigits(d, '-');
    CountAppend(d, [separator], ':');
    CountAppend(d, [separator], '-');
    CountAppend(d + [separator], rest, ':');
    CountAppend(d + [separator], rest, '-');
  }

  lemma ScanLong(h: string, m: string, s: string)
    requires h != "" && Digits(h) && m != "" && Digits(m) && s != "" && Digits(s)
    ensures var t := h + ":" + (m + ":" + s);
            && ScanFields(t, "::") == [Value(h) as int, Value(m) as int, Value(s) as int]
            && Count(t, ':') == 2 && Count(t, '-') == 0
  {
    ScanShort(m, s);
    ScanOneField(h, ':', m + ":" + s, "::");
    assert "::"[1..] == ":";
    CountFields(h, ':', m + ":" + s);
  }

  lemma ScanDays(d: string, h: string, m: string, s: string)
    requires d != "" && Digits(d) && h != "" && Digits(h) && m != "" && Digits(m) && s != "" && Digits(s)
    ensures var t := d + "-" + (h + ":" + (m + ":" + s));
            && ScanFields(t, "-::") == [Value(d) as int, Value(h) as int, Value(m) as int, Value(s) as int]
            && Count(t, '-') == 1
  {
    hide ScanFields, Count, Value, Digits;
    ScanLong(h, m, s);
    ScanOneField(d, '-', h + ":" + (m + ":" + s), "-::");
    assert "-::"[1..] == "::";
    CountFields(d, '-', h + ":" + (m + ":" + s));
  }

  lemma SpellRead(days: nat, hours: nat, minutes: nat, seconds: nat, pad: nat)
    requires hours < 24 && minutes < 60 && seconds < 60
    ensures Elapsed(Spell(days, hours, minutes, seconds, pad)) == ((days * 24 + hours) * 60 + minutes) * 60 + seconds
  {
    TwoDigitsValue(seconds);
    TwoDigitsValue(minutes);
    TwoDigitsValue(hours);
    var s, m, h := TwoDigits(seconds), TwoDigits(minutes), TwoDigits(hours);
    hide TwoDigits, Value, Digits, ScanFields, Count, Zeros, Decimal;
    if days > 0 {
      DecimalValue(days);
      LeadingZeros(pad, Decimal(days));
      ScanDays(Zeros(pad) + Decimal(days), h, m, s);
    } else if hours > 0 {
      ScanLong(h, m, s);
    } else {
      ScanShort(m, s);
    }
  }

  /** Reading back any rendered elapsed time gives the same number of seconds. */
  lemma ElapsedInvertsRender(elapsed: nat, pad: nat)
    ensures Elapsed(Render(elapsed, pad)) == elapsed
  {
    var minutes := elapsed / 60;
    var hours := minutes / 60;
    hide Elapsed, Spell;
    SpellRead(hours / 24, hours % 24, minutes % 60, elapsed % 60, pad);
  }

  lemma ElapsedFields(t: string, f: seq<int>, separators: string)
    requires f == ScanFields(t, separators)
    ensures Count(t, '-') > 0 && separators == "-::" ==> |f| == 4 && Elapsed(t) == f[0] * 86400 + f[1] * 3600 + f[2] * 60 + f[3]
    ensures Count(t, '-') == 0 && Count(t, ':') == 2 && separators == "::" ==> |f| == 3 && Elapsed(t) == f[0] * 3600 + f[1] * 60 + f[2]
    ensures Count(t, '-') == 0 && Count(t, ':') == 1 && separators == ":" ==> |f| == 2 && Elapsed(t) == f[0] * 60 + f[1]
  {
    hide ScanFields, Count;
  }

  /** Any digits in the three formats: days, hours and minutes count 86400, 3600 and 60 seconds. */
  lemma ElapsedByFields(d: string, h: string, m: string, s: string)
    requires d != "" && Digits(d) && h != "" && Digits(h) && m != "" && Digits(m) && s != "" && Digits(s)
    ensures Elapsed(m + ":" + s) == Value(m) * 60 + Value(s)
    ensures Elapsed(h + ":" + (m + ":" + s)) == Value(h) * 3600 + Value(m) * 60 + Value(s)
    ensures Elapsed(d + "-" + (h + ":" + (m + ":" + s))) == Value(d) * 86400 + Value(h) * 3600 + Value(m) * 60 + Value(s)
  {
    hide ScanFields, Count, Value, Digits, Elapsed;
    ScanShort(m, s);
    ScanLong(h, m, s);
    ScanDays(d, h, m, s);
    ElapsedFields(m + ":" + s, [Value(m) as int, Value(s) as int], ":");
    ElapsedFields(h + ":" + (m + ":" + s), [Value(h) as int, Value(m) as int, Value(s) as int], "::");
    ElapsedFields(d + "-" + (h + ":" + (m + ":" + s)), [Value(d) as int, Value(h) as int, Value(m) as int, Value(s) as int], "-::");
  }
}
