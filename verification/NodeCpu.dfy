/** The topology index of nodes, sockets, cores and hyper-threads (src/sysinfo/host/static/node_cpu.cpp). */
module NodeTopology {
  import opened Wrappers
  import opened Sets
  import opened StrTools
  import Characters
  import Decimals
  import CpuList

  // ---------- one line of cpuinfo ----------

  datatype Item = Processor(id: int) | PhysicalId(id: int) | CoreIdItem(id: int) | BlankLine | OtherLine | BadLine

  // BadLine stands for the exceptions of a missing or unreadable number.
  function ItemOf(line: string): Item {
    if Stripped(line) == "" then BlankLine
    else
      var words := Pieces(line, ':', "");
      if words == [] then OtherLine
      else
        var key := Stripped(words[0]);
        if key != "processor" && key != "physical id" && key != "core id" then OtherLine
        else if |words| < 2 || CpuList.Stoi(words[1]).None? then BadLine
        else
          var id := CpuList.Stoi(words[1]).value;
          if key == "processor" then Processor(id) else if key == "physical id" then PhysicalId(id) else CoreIdItem(id)
  }

  /** A field line of the kernel gives its field, a line of another field is passed over, and exactly the blank
      lines end a record. */
  method ReadLine(line: string) returns (item: Item)
    ensures forall tabs, id: nat | AllBlank(tabs) && line == FieldLine("processor", tabs, id) :: item == Processor(id)
    ensures forall tabs, id: nat | AllBlank(tabs) && line == FieldLine("physical id", tabs, id) :: item == PhysicalId(id)
    ensures forall tabs, id: nat | AllBlank(tabs) && line == FieldLine("core id", tabs, id) :: item == CoreIdItem(id)
    ensures forall other: Field | other.Valid() && line == other.Text() :: item == OtherLine
    ensures item == BlankLine <==> AllBlank(line)
    ensures item == ItemOf(line)
  {
    forall tabs, id: nat | AllBlank(tabs)
      ensures line == FieldLine("processor", tabs, id) ==> ItemOf(line) == Processor(id)
      ensures line == FieldLine("physical id", tabs, id) ==> ItemOf(line) == PhysicalId(id)
      ensures line == FieldLine("core id", tabs, id) ==> ItemOf(line) == CoreIdItem(id)
    {
      FieldLinesRead(tabs, id);
    }
    forall other: Field | other.Valid() && line == other.Text() ensures ItemOf(line) == OtherLine {
      OtherLineRead(other);
    }
    BlankExactly(line);
    hide FieldLine, AllBlank, Stripped, Pieces, CpuList.Stoi;
    hide Field.Text;
    var text, _ := Strip(line);
    if text == "" {
      return BlankLine;
    }
    var words := Split(line, ':');
    if words == [] {
      return OtherLine;
    }
    var key, _ := Strip(words[0]);
    if key != "processor" && key != "physical id" && key != "core id" {
      return OtherLine;
    }
    if |words| < 2 {
      return BadLine;
    }
    var id := CpuList.Stoi(words[1]);
    if id.None? {
      return BadLine;
    }
    return if key == "processor" then Processor(id.value) else if key == "physical id" then PhysicalId(id.value) else CoreIdItem(id.value);
  }

  // A line as the kernel writes it: the key, tabs, a colon, a blank and the number.
  function FieldLine(key: string, tabs: string, id: nat): string { key + tabs + ": " + Decimals.Decimal(id) }

  /** The three field lines, whatever blanks stand before the colon, are read as their fields. */
  lemma FieldLinesRead(tabs: string, id: nat)
    requires AllBlank(tabs)
    ensures ItemOf("processor" + tabs + ": " + Decimals.Decimal(id)) == Processor(id)
    ensures ItemOf("physical id" + tabs + ": " + Decimals.Decimal(id)) == PhysicalId(id)
    ensures ItemOf("core id" + tabs + ": " + Decimals.Decimal(id)) == CoreIdItem(id)
  {
    FieldWords("processor", tabs, id);
    FieldWords("physical id", tabs, id);
    FieldWords("core id", tabs, id);
    hide Stripped, Pieces, CpuList.Stoi, Decimals.Decimal;
  }

  lemma FieldWords(key: string, tabs: string, id: nat)
    requires key in {"processor", "physical id", "core id"} && AllBlank(tabs)
    ensures var line := key + tabs + ": " + Decimals.Decimal(id);
            && Stripped(line) != "" && |Pieces(line, ':', "")| == 2
            && Stripped(Pieces(line, ':', "")[0]) == key && CpuList.Stoi(Pieces(line, ':', "")[1]) == Some(id)
  {
    var number := " " + Decimals.Decimal(id);
    assert !IsBlank(key[0]) && !IsBlank(key[|key| - 1]) && ':' !in key && key != "";
    NoColon(id);
    LastPiece(number, ':', "");
    StoiBlank(id);
    hide Stripped, Pieces, CpuList.Stoi, Decimals.Decimal;
    FieldPieces(key, tabs, number);
    assert "" + number == number;
    assert key + tabs + ": " + Decimals.Decimal(id) == key + tabs + ":" + number;
  }

  // The key of a line of the form key: value, and what follows it.
  lemma FieldPieces(key: string, tabs: string, value: string)
    requires key != "" && !IsBlank(key[0]) && !IsBlank(key[|key| - 1]) && ':' !in key && AllBlank(tabs)
    ensures var line := key + tabs + ":" + value;
            Stripped(line) != "" && Pieces(line, ':', "") == [key + tabs] + Pieces(value, ':', "") && Stripped(key + tabs) == key
  {
    StripKey(key, tabs);
    forall i | 0 <= i < |tabs| ensures tabs[i] != ':' {
      assert IsBlank(tabs[i]);
    }
    NotBlank(key + tabs + ":" + value);
    FirstPiece(key + tabs, ':', value, "");
    assert "" + (key + tabs) == key + tabs;
  }

  // Any other line of the form key: value.
  datatype Field = Field(key: string, tabs: string, value: string) {
    predicate Valid() {
      && key != "" && !IsBlank(key[0]) && !IsBlank(key[|key| - 1]) && ':' !in key && key !in {"processor", "physical id", "core id"}
      && AllBlank(tabs)
    }

    function Text(): string { key + tabs + ":" + value }
  }

  lemma OtherLineRead(other: Field)
    requires other.Valid()
    ensures ItemOf(other.Text()) == OtherLine
  {
    FieldPieces(other.key, other.tabs, other.value);
    hide Stripped, Pieces, CpuList.Stoi;
  }

  lemma BlankExactly(line: string)
    ensures ItemOf(line) == BlankLine <==> AllBlank(line)
  {
    var at := StrippedStrips(line);
    if Stripped(line) == "" {
      BlankEnds(line, at, at);
    } else {
      assert line[at] == Stripped(line)[0];
    }
    hide Stripped, Pieces;
  }

  lemma StripKey(key: string, tabs: string)
    requires key != "" && !IsBlank(key[0]) && !IsBlank(key[|key| - 1]) && AllBlank(tabs)
    ensures Stripped(key + tabs) == key
  {
    var s := key + tabs;
    var at := StrippedStrips(s);
    assert s[0..|key|] == key && s[..0] == "" && s[|key|..] == tabs;
    StripsToUnique(s, key, 0, Stripped(s), at);
  }

  lemma NotBlank(s: string)
    requires s != "" && !IsBlank(s[0])
    ensures Stripped(s) != ""
  {
    var at := StrippedStrips(s);
    if Stripped(s) == "" {
      BlankEnds(s, at, at);
    }
  }

  lemma NoColon(id: nat)
    ensures ':' !in " " + Decimals.Decimal(id)
  {
    assert Decimals.Digits(Decimals.Decimal(id));
  }

  lemma StoiBlank(id: nat)
    ensures CpuList.Stoi(" " + Decimals.Decimal(id)) == Some(id)
  {
    var d := Decimals.Decimal(id);
    CpuList.StoiDecimal(id, "");
    assert d + "" == d && (" " + d)[1..] == d;
    assert !Characters.IsSpace(d[0]);
  }

  lemma OneDigit(n: nat)
    requires n < 10
    ensures Decimals.Decimal(n) == ['0' + n as char]
  {
  }

  /** Four lines as they stand in /proc/cpuinfo. */
  lemma CpuinfoExample()
    ensures ItemsOfLines(["processor" + "\t" + ": " + "0", "physical id" + "\t" + ": " + "1", "core id" + "\t\t" + ": " + "3", ""]) ==
            [Processor(0), PhysicalId(1), CoreIdItem(3), BlankLine]
  {
    OneDigit(0);
    OneDigit(1);
    OneDigit(3);
    assert ['0' + 0 as char] == "0" && ['0' + 1 as char] == "1" && ['0' + 3 as char] == "3";
    hide ItemOf, Decimals.Decimal;
    FieldLinesRead("\t", 0);
    FieldLinesRead("\t", 1);
    FieldLinesRead("\t\t", 3);
    BlankExactly("");
  }

  // ---------- the base tables ----------

  datatype CoreId = CoreId(socketId: int, coreId: int)

  function At<K, V>(m: map<K, set<V>>, key: K): set<V> { if key in m then m[key] else {} }

  function Add<K, V>(m: map<K, set<V>>, key: K, value: V): map<K, set<V>> { m[key := At(m, key) + {value}] }

  // The tables by socket and by core, and all hyper-threads.
  datatype Tables = Tables(socketHp: map<int, set<int>>, coreHp: map<CoreId, set<int>>, hps: set<int>)

  // The ids carried from line to line; -1 before the first.
  datatype Carry = Carry(hp: int, socket: int, core: CoreId)

  const NO_CARRY := Carry(-1, -1, CoreId(-1, -1))

  function ReadItem(item: Item, carry: Carry, tables: Tables): (Carry, Tables) {
    match item
    case Processor(id) => (carry.(hp := id), tables)
    case PhysicalId(id) => (carry.(socket := id), tables)
    case CoreIdItem(id) => (carry.(core := CoreId(carry.socket, id)), tables)
    case BlankLine =>
      (carry, Tables(Add(tables.socketHp, carry.socket, carry.hp), Add(tables.coreHp, carry.core, carry.hp), tables.hps + {carry.hp}))
    case OtherLine => (carry, tables)
    case BadLine => (carry, tables)
  }

  function ReadItems(items: seq<Item>, carry: Carry, tables: Tables): Tables
    decreases |items|
  {
    if items == [] then tables
    else
      var (c, t) := ReadItem(items[0], carry, tables);
      ReadItems(items[1..], c, t)
  }

  // A processor's record: its three fields in order, among other lines, ended by a blank line.
  datatype Record = Record(hp: int, socket: int, core: int, gaps: seq<nat>) {
    function Items(): seq<Item>
      requires |gaps| == 4
    {
      Others(gaps[0]) + ([Processor(hp)] + (Others(gaps[1]) + ([PhysicalId(socket)] +
        (Others(gaps[2]) + ([CoreIdItem(core)] + (Others(gaps[3]) + [BlankLine]))))))
    }

    function Core(): CoreId { CoreId(socket, core) }
  }

  function Others(n: nat): seq<Item> { seq(n, _ => OtherLine) }

  predicate Complete(records: seq<Record>) { forall i | 0 <= i < |records| :: |records[i].gaps| == 4 }

  function ItemsOf(records: seq<Record>): seq<Item>
    requires Complete(records)
  {
    if records == [] then [] else records[0].Items() + ItemsOf(records[1..])
  }

  lemma {:induction false} SkipOthers(n: nat, rest: seq<Item>, carry: Carry, tables: Tables)
    ensures ReadItems(Others(n) + rest, carry, tables) == ReadItems(rest, carry, tables)
  {
    if n == 0 {
      assert Others(n) + rest == rest;
    } else {
      assert (Others(n) + rest)[1..] == Others(n - 1) + rest;
      SkipOthers(n - 1, rest, carry, tables);
    }
  }

  lemma ReadFirst(item: Item, rest: seq<Item>, carry: Carry, tables: Tables)
    ensures ReadItems([item] + rest, carry, tables) ==
            ReadItems(rest, ReadItem(item, carry, tables).0, ReadItem(item, carry, tables).1)
  {
    assert ([item] + rest)[1..] == rest;
  }

  // A whole record adds its hyper-thread under its own socket and core, whatever was carried before.
  function AddRecord(tables: Tables, r: Record): Tables {
    Tables(Add(tables.socketHp, r.socket, r.hp), Add(tables.coreHp, r.Core(), r.hp), tables.hps + {r.hp})
  }

  lemma ReadRecord(r: Record, rest: seq<Item>, carry: Carry, tables: Tables)
    requires |r.gaps| == 4
    ensures ReadItems(r.Items() + rest, carry, tables) == ReadItems(rest, Carry(r.hp, r.socket, r.Core()), AddRecord(tables, r))
  {
    var t4 := [BlankLine] + rest;
    var t3 := [CoreIdItem(r.core)] + (Others(r.gaps[3]) + t4);
    var t2 := [PhysicalId(r.socket)] + (Others(r.gaps[2]) + t3);
    var t1 := [Processor(r.hp)] + (Others(r.gaps[1]) + t2);
    assert r.Items() + rest == Others(r.gaps[0]) + t1;
    var c1 := carry.(hp := r.hp);
    var c2 := c1.(socket := r.socket);
    var c3 := Carry(r.hp, r.socket, r.Core());
    hide ReadItems, Others;
    SkipOthers(r.gaps[0], t1, carry, tables);
    ReadFirst(Processor(r.hp), Others(r.gaps[1]) + t2, carry, tables);
    SkipOthers(r.gaps[1], t2, c1, tables);
    ReadFirst(PhysicalId(r.socket), Others(r.gaps[2]) + t3, c1, tables);
    SkipOthers(r.gaps[2], t3, c2, tables);
    ReadFirst(CoreIdItem(r.core), Others(r.gaps[3]) + t4, c2, tables);
    SkipOthers(r.gaps[3], t4, c3, tables);
    ReadFirst(BlankLine, rest, c3, tables);
  }

  // ---------- what the tables hold ----------

  ghost function HpsOfSocket(records: seq<Record>, s: int): set<int> { set r | r in records && r.socket == s :: r.hp }

  ghost function HpsOfCore(records: seq<Record>, c: CoreId): set<int> { set r | r in records && r.Core() == c :: r.hp }

  ghost function Hps(records: seq<Record>): set<int> { set r | r in records :: r.hp }

  // A key for exactly the sockets and cores that occur, each with exactly its hyper-threads.
  ghost predicate Indexes(tables: Tables, records: seq<Record>) {
    && (forall s :: At(tables.socketHp, s) == HpsOfSocket(records, s))
    && (forall c :: At(tables.coreHp, c) == HpsOfCore(records, c))
    && NoEmptyEntry(tables.socketHp) && NoEmptyEntry(tables.coreHp)
    && tables.hps == Hps(records)
  }

  ghost predicate NoEmptyEntry<K, V>(m: map<K, set<V>>) { forall k <- m :: m[k] != {} }

  const NO_TABLES := Tables(map[], map[], {})

  lemma AddAdds<K(!new), V>(m: map<K, set<V>>, key: K, value: V)
    ensures forall k :: At(Add(m, key, value), k) == At(m, k) + (if k == key then {value} else {})
    ensures NoEmptyEntry(m) ==> NoEmptyEntry(Add(m, key, value))
  {
  }

  lemma HpsNext(records: seq<Record>, r: Record)
    ensures forall s :: HpsOfSocket(records + [r], s) == HpsOfSocket(records, s) + (if s == r.socket then {r.hp} else {})
    ensures forall c :: HpsOfCore(records + [r], c) == HpsOfCore(records, c) + (if c == r.Core() then {r.hp} else {})
    ensures Hps(records + [r]) == Hps(records) + {r.hp}
  {
    var more := records + [r];
    assert forall u :: u in more <==> u in records || u == r;
    forall s ensures HpsOfSocket(more, s) == HpsOfSocket(records, s) + (if s == r.socket then {r.hp} else {}) {}
    forall c ensures HpsOfCore(more, c) == HpsOfCore(records, c) + (if c == r.Core() then {r.hp} else {}) {}
  }

  lemma IndexesAdd(tables: Tables, records: seq<Record>, r: Record)
    requires Indexes(tables, records)
    ensures Indexes(AddRecord(tables, r), records + [r])
  {
    hide Add, At, HpsOfSocket, HpsOfCore, Hps, NoEmptyEntry;
    AddAdds(tables.socketHp, r.socket, r.hp);
    AddAdds(tables.coreHp, r.Core(), r.hp);
    HpsNext(records, r);
  }

  /** Reading well-formed records indexes them, on top of what was indexed before. */
  lemma {:induction false} ReadRecords(records: seq<Record>, carry: Carry, tables: Tables, before: seq<Record>)
    requires Complete(records) && Indexes(tables, before)
    ensures Indexes(ReadItems(ItemsOf(records), carry, tables), before + records)
    decreases |records|
  {
    hide Indexes, AddRecord;
    if records == [] {
      assert before + records == before;
      assert ReadItems([], carry, tables) == tables;
    } else {
      var r, rest := records[0], records[1..];
      hide ReadItems;
      hide Record.Items;
      IndexesAdd(tables, before, r);
      ReadRecord(r, ItemsOf(rest), carry, tables);
      ReadRecords(rest, Carry(r.hp, r.socket, r.Core()), AddRecord(tables, r), before + [r]);
      assert before + [r] + rest == before + records;
    }
  }

  lemma SameTable<K, V>(a: map<K, set<V>>, b: map<K, set<V>>)
    requires NoEmptyEntry(a) && NoEmptyEntry(b) && forall k :: At(a, k) == At(b, k)
    ensures a == b
  {
    forall k ensures k in a <==> k in b {
      assert k in a ==> At(a, k) != {};
      assert k in b ==> At(b, k) != {};
    }
    forall k | k in a ensures a[k] == b[k] {
      assert At(a, k) == At(b, k);
    }
  }

  // Indexing the same records once more changes nothing.
  lemma IndexesTwice(tables: Tables, tables': Tables, records: seq<Record>)
    requires Indexes(tables, records) && Indexes(tables', records + records)
    ensures tables' == tables
  {
    assert forall r :: r in records + records <==> r in records;
    forall s ensures At(tables'.socketHp, s) == At(tables.socketHp, s) {
      assert HpsOfSocket(records + records, s) == HpsOfSocket(records, s);
    }
    forall c ensures At(tables'.coreHp, c) == At(tables.coreHp, c) {
      assert HpsOfCore(records + records, c) == HpsOfCore(records, c);
    }
    assert Hps(records + records) == Hps(records);
    SameTable(tables'.socketHp, tables.socketHp);
    SameTable(tables'.coreHp, tables.coreHp);
  }

  // ---------- the derived tables ----------

  // The keys among vs whose hyper-threads lie within a set.
  ghost function Included<V>(hps: set<int>, inner: map<V, set<int>>, vs: set<V>): set<V> {
    set v | v in vs && v in inner && inner[v] <= hps
  }

  // The table by inclusion, on top of what it held before.
  ghost predicate Derived<K(!new), V>(was: map<K, set<V>>, now: map<K, set<V>>, outer: map<K, set<int>>,
                                      inner: map<V, set<int>>, vs: set<V>) {
    && (NoEmptyEntry(was) ==> NoEmptyEntry(now))
    && forall k :: At(now, k) == At(was, k) + (if k in outer then Included(outer[k], inner, vs) else {})
  }

  method AddIncluded<K(==, !new), V(==)>(outer: map<K, set<int>>, inner: map<V, set<int>>, table: map<K, set<V>>)
    returns (t: map<K, set<V>>)
    ensures Derived(table, t, outer, inner, inner.Keys)
  {
    t := table;
    var pending := inner.Keys;
    ghost var done: set<V> := {};
    DerivedNone(table, outer, inner);
    while pending != {}
      invariant done == inner.Keys - pending && pending <= inner.Keys
      invariant Derived(table, t, outer, inner, done)
      decreases |pending|
    {
      var v := Pick(pending);
      ghost var before := t;
      t := AddOne(outer, inner[v], v, t);
      DerivedNext(table, before, t, outer, inner, done, v);
      pending, done := pending - {v}, done + {v};
    }
    assert done == inner.Keys;
  }

  // One inner entry, against all outer ones.
  method AddOne<K(==, !new), V(==)>(outer: map<K, set<int>>, hps: set<int>, v: V, table: map<K, set<V>>) returns (t: map<K, set<V>>)
    ensures AddsTo(table, t, outer, outer.Keys, hps, v)
  {
    hide AddsTo, Add;
    t := table;
    var pending := outer.Keys;
    AddsToNone(table, outer, hps, v);
    assert outer.Keys - pending == {};
    while pending != {}
      invariant pending <= outer.Keys && AddsTo(table, t, outer, outer.Keys - pending, hps, v)
      decreases |pending|
    {
      var k := Pick(pending);
      AddsToNext(table, t, outer, outer.Keys - pending, hps, v, k);
      assert outer.Keys - (pending - {k}) == outer.Keys - pending + {k};
      pending := pending - {k};
      if hps <= outer[k] {
        t := Add(t, k, v);
      }
    }
    assert outer.Keys - {} == outer.Keys;
  }

  lemma AddsToNone<K(!new), V>(table: map<K, set<V>>, outer: map<K, set<int>>, hps: set<int>, v: V)
    ensures AddsTo(table, table, outer, {}, hps, v)
  {
  }

  lemma AddsToNext<K(!new), V>(was: map<K, set<V>>, mid: map<K, set<V>>, outer: map<K, set<int>>, ks: set<K>, hps: set<int>, v: V, k: K)
    requires k in outer && AddsTo(was, mid, outer, ks, hps, v)
    ensures AddsTo(was, if hps <= outer[k] then Add(mid, k, v) else mid, outer, ks + {k}, hps, v)
  {
    AddAdds(mid, k, v);
    hide Add;
  }

  ghost predicate AddsTo<K(!new), V>(was: map<K, set<V>>, now: map<K, set<V>>, outer: map<K, set<int>>, ks: set<K>, hps: set<int>, v: V) {
    && (NoEmptyEntry(was) ==> NoEmptyEntry(now))
    && forall k :: At(now, k) == At(was, k) + (if k in ks && k in outer && hps <= outer[k] then {v} else {})
  }

  lemma DerivedNone<K(!new), V>(table: map<K, set<V>>, outer: map<K, set<int>>, inner: map<V, set<int>>)
    ensures Derived(table, table, outer, inner, {})
  {
  }

  lemma DerivedNext<K(!new), V>(was: map<K, set<V>>, mid: map<K, set<V>>, now: map<K, set<V>>, outer: map<K, set<int>>,
                                inner: map<V, set<int>>, done: set<V>, v: V)
    requires Derived(was, mid, outer, inner, done) && v in inner && AddsTo(mid, now, outer, outer.Keys, inner[v], v)
    ensures Derived(was, now, outer, inner, done + {v})
  {
    forall k ensures At(now, k) == At(was, k) + (if k in outer then Included(outer[k], inner, done + {v}) else {}) {
      if k in outer {
        assert Included(outer[k], inner, done + {v}) == Included(outer[k], inner, done) + (if inner[v] <= outer[k] then {v} else {});
      }
    }
  }

  // ---------- lookups ----------

  ghost predicate Disjoint<K(!new), V>(m: map<K, set<V>>) { forall k, j | k != j :: At(m, k) !! At(m, j) }

  // The keys of a table in the order of the map's iterator.
  ghost predicate Orders<K, V>(order: seq<K>, data: map<K, set<V>>) {
    (forall i | 0 <= i < |order| :: order[i] in data) && forall k <- data :: k in order
  }

  /** The first key, in the table's order, that holds the value; in a table of disjoint sets the one key that holds it. */
  method GetKeyByValue<K(==, !new), V(==)>(data: map<K, set<V>>, order: seq<K>, value: V) returns (key: Option<K>)
    requires Orders(order, data)
    ensures key.Some? ==> exists i :: 0 <= i < |order| && order[i] == key.value && value in At(data, order[i])
                                      && forall j | 0 <= j < i :: value !in At(data, order[j])
    ensures key.None? ==> forall k :: value !in At(data, k)
    ensures Disjoint(data) ==> forall k :: key == Some(k) <==> value in At(data, k)
  {
    for i := 0 to |order|
      invariant forall j | 0 <= j < i :: value !in At(data, order[j])
    {
      var k := order[i];
      if value in data[k] {
        return Some(k);
      }
    }
    return None;
  }

  /** The values of a key: none exactly for a key the table does not know, and in a table of disjoint sets no other
      key's values. */
  method GetValueByKey<K(==, !new), V(==)>(data: map<K, set<V>>, key: K) returns (values: set<V>)
    ensures NoEmptyEntry(data) ==> (values == {} <==> key !in data)
    ensures Disjoint(data) ==> forall k | k != key :: values !! At(data, k)
    ensures values == At(data, key)
  {
    if key in data {
      return data[key];
    } else {
      return {};
    }
  }

  /** In a table of disjoint sets a value is among those of a key exactly if the lookup by value gives the key. */
  method LookupsInvert<K(==, !new), V(==)>(data: map<K, set<V>>, order: seq<K>, key: K, value: V)
    returns (values: set<V>, holder: Option<K>)
    requires Orders(order, data) && Disjoint(data)
    ensures value in values <==> holder == Some(key)
    ensures holder.None? <==> forall k :: value !in At(data, k)
  {
    values := GetValueByKey(data, key);
    holder := GetKeyByValue(data, order, value);
  }

  // ---------- one refresh ----------

  function ListCpus(text: string): Option<set<int>> { CpuList.InsertAll({}, CpuList.Windows(text, 0, 0)) }

  // The CPUs the lists give to a node.
  ghost function CpusOf(lists: seq<(int, string)>, node: int): set<int> {
    if lists == [] then {} else
    var (id, text) := lists[|lists| - 1];
    CpusOf(lists[..|lists| - 1], node) + (if id == node && ListCpus(text).Some? then ListCpus(text).value else {})
  }

  ghost predicate NodesFrom(was: map<int, set<int>>, now: map<int, set<int>>, lists: seq<(int, string)>) {
    && (NoEmptyEntry(was) ==> NoEmptyEntry(now))
    && forall k :: At(now, k) == At(was, k) + CpusOf(lists, k)
  }

  function ItemsOfLines(lines: seq<string>): seq<Item> { seq(|lines|, i requires 0 <= i < |lines| => ItemOf(lines[i])) }

  datatype Index = Index(nodeHp: map<int, set<int>>, tables: Tables, nodeSocket: map<int, set<int>>,
                         nodeCore: map<int, set<CoreId>>, socketCore: map<int, set<CoreId>>)

  const NO_INDEX := Index(map[], NO_TABLES, map[], map[], map[])

  // What the refresh body makes of an index.
  ghost predicate Body(was: Index, now: Index, lists: seq<(int, string)>, items: seq<Item>) {
    && NodesFrom(was.nodeHp, now.nodeHp, lists)
    && now.tables == ReadItems(items, NO_CARRY, was.tables)
    && Derived(was.nodeSocket, now.nodeSocket, now.nodeHp, now.tables.socketHp, now.tables.socketHp.Keys)
    && Derived(was.nodeCore, now.nodeCore, now.nodeHp, now.tables.coreHp, now.tables.coreHp.Keys)
    && Derived(was.socketCore, now.socketCore, now.tables.socketHp, now.tables.coreHp, now.tables.coreHp.Keys)
  }

  method ReadList(text: string) returns (cpus: Option<set<int>>)
    ensures cpus == ListCpus(text)
  {
    cpus := CpuList.ParseCpuList(text);
  }

  // The lists before the i-th can be read.
  predicate ListsRead(lists: seq<(int, string)>, i: nat)
    requires i <= |lists|
  {
    forall j | 0 <= j < i :: ListCpus(lists[j].1).Some?
  }

  predicate NoBadLine(items: seq<Item>) { forall i | 0 <= i < |items| :: !items[i].BadLine? }

  // No number is missing.
  predicate Readable(lists: seq<(int, string)>, lines: seq<string>) {
    ListsRead(lists, |lists|) && NoBadLine(ItemsOfLines(lines))
  }

  class NodeCpu {
    var nodeHp: map<int, set<int>>
    var tables: Tables
    var nodeSocket: map<int, set<int>>
    var nodeCore: map<int, set<CoreId>>
    var socketCore: map<int, set<CoreId>>
    var hasData: bool

    ghost function Abs(): Index
      reads this
    {
      Index(nodeHp, tables, nodeSocket, nodeCore, socketCore)
    }

    constructor ()
      ensures Abs() == NO_INDEX && !hasData
    {
      nodeHp, tables, nodeSocket, nodeCore, socketCore, hasData := map[], NO_TABLES, map[], map[], map[], false;
    }

    method Clear()
      modifies this
      ensures Abs() == NO_INDEX && !hasData
    {
      nodeHp, tables, nodeSocket, nodeCore, socketCore, hasData := map[], NO_TABLES, map[], map[], map[], false;
    }

    method RefreshNodeHpthread(lists: seq<(int, string)>) returns (ok: bool)
      modifies this`nodeHp
      ensures ok <==> ListsRead(lists, |lists|)
      ensures ok ==> NodesFrom(old(nodeHp), nodeHp, lists)
    {
      NodesNone(nodeHp);
      hide NodesFrom, ListCpus, At;
      assert lists[..0] == [];
      for i := 0 to |lists|
        invariant NodesFrom(old(nodeHp), nodeHp, lists[..i])
        invariant ListsRead(lists, i)
      {
        var (id, text) := lists[i];
        var cpus := ReadList(text);
        if cpus.None? {
          return false;
        }
        assert lists[..i + 1] == lists[..i] + [(id, text)];
        NodesNext(old(nodeHp), nodeHp, lists[..i], id, text);
        if cpus.value != {} {
          nodeHp := nodeHp[id := At(nodeHp, id) + cpus.value];
        }
      }
      assert lists[..|lists|] == lists;
      return true;
    }

    method RefreshSocketCoreHpthread(lines: seq<string>) returns (ok: bool)
      modifies this`tables
      ensures ok <==> NoBadLine(ItemsOfLines(lines))
      ensures ok ==> tables == ReadItems(ItemsOfLines(lines), NO_CARRY, old(tables))
    {
      ghost var items := ItemsOfLines(lines);
      hide ItemOf;
      var carry := NO_CARRY;
      for i := 0 to |lines|
        invariant ReadItems(items[i..], carry, tables) == ReadItems(items, NO_CARRY, old(tables))
        invariant forall j | 0 <= j < i :: !items[j].BadLine?
      {
        var item := ReadLine(lines[i]);
        assert item == items[i];
        if item.BadLine? {
          return false;
        }
        assert items[i..][1..] == items[i + 1..] && items[i..][0] == item;
        var (c, t) := ReadItem(item, carry, tables);
        carry, tables := c, t;
      }
      return true;
    }

    method RefreshOthers()
      modifies this`nodeSocket, this`nodeCore, this`socketCore
      ensures Derived(old(nodeSocket), nodeSocket, nodeHp, tables.socketHp, tables.socketHp.Keys)
      ensures Derived(old(nodeCore), nodeCore, nodeHp, tables.coreHp, tables.coreHp.Keys)
      ensures Derived(old(socketCore), socketCore, tables.socketHp, tables.coreHp, tables.coreHp.Keys)
    {
      nodeSocket := AddIncluded(nodeHp, tables.socketHp, nodeSocket);
      nodeCore := AddIncluded(nodeHp, tables.coreHp, nodeCore);
      socketCore := AddIncluded(tables.socketHp, tables.coreHp, socketCore);
    }

    method RefreshBody(lists: seq<(int, string)>, lines: seq<string>) returns (ok: bool)
      modifies this`nodeHp, this`tables, this`nodeSocket, this`nodeCore, this`socketCore
      ensures ok <==> Readable(lists, lines)
      ensures !ok ==> nodeSocket == old(nodeSocket) && nodeCore == old(nodeCore) && socketCore == old(socketCore)
      ensures ok ==> Body(old(Abs()), Abs(), lists, ItemsOfLines(lines))
    {
      hide NodesFrom, Derived, ItemsOfLines, ReadItems, NoBadLine, ListsRead;
      ok := RefreshNodeHpthread(lists);
      if ok {
        ok := RefreshSocketCoreHpthread(lines);
      }
      if ok {
        RefreshOthers();
      }
    }

    /** With data nothing is touched. Without, the body runs to its end exactly if all numbers can be read; a failed
        refresh is an exception, which leaves no data flagged. */
    method Refresh(lists: seq<(int, string)>, lines: seq<string>) returns (ok: bool)
      modifies this
      ensures old(hasData) ==> ok && Abs() == old(Abs()) && hasData
      ensures !old(hasData) ==> hasData == ok == Readable(lists, lines) && (ok ==> Body(old(Abs()), Abs(), lists, ItemsOfLines(lines)))
    {
      hide Body, Readable;
      if hasData {
        return true;
      }
      ok := RefreshBody(lists, lines);
      if ok {
        hasData := true;
      }
    }
  }

  lemma NodesNone(nodes: map<int, set<int>>)
    ensures NodesFrom(nodes, nodes, [])
  {
  }

  lemma NodesNext(was: map<int, set<int>>, mid: map<int, set<int>>, lists: seq<(int, string)>, id: int, text: string)
    requires NodesFrom(was, mid, lists) && ListCpus(text).Some?
    ensures var cpus := ListCpus(text).value;
            NodesFrom(was, if cpus != {} then mid[id := At(mid, id) + cpus] else mid, lists + [(id, text)])
  {
    hide ListCpus;
    var cpus := ListCpus(text).value;
    var now := if cpus != {} then mid[id := At(mid, id) + cpus] else mid;
    assert (lists + [(id, text)])[..|lists|] == lists;
    forall k ensures At(now, k) == At(was, k) + CpusOf(lists + [(id, text)], k) {
      assert CpusOf(lists + [(id, text)], k) == CpusOf(lists, k) + (if id == k then cpus else {});
      assert At(now, k) == At(mid, k) + (if id == k then cpus else {});
    }
  }

  // ---------- what a refreshed index means ----------

  // Each processor once.
  ghost predicate Once(records: seq<Record>) { forall i, j | 0 <= i < j < |records| :: records[i].hp != records[j].hp }

  // The node lists give no CPU to two nodes.
  ghost predicate NodesApart(lists: seq<(int, string)>) { forall k, j | k != j :: CpusOf(lists, k) !! CpusOf(lists, j) }

  // The sets of a table are disjoint and their union is exactly the given set.
  ghost predicate Partitions<K(!new)>(m: map<K, set<int>>, whole: set<int>) {
    && Disjoint(m)
    && NoEmptyEntry(m)
    && (forall x | x in whole :: Held(m, x))
    && forall k :: At(m, k) <= whole
  }

  ghost predicate Held<K(!new)>(m: map<K, set<int>>, x: int) { exists k :: x in At(m, k) }

  lemma OneRecord(records: seq<Record>, r: Record, u: Record)
    requires Once(records) && r in records && u in records && r.hp == u.hp
    ensures r == u
  {
    var i :| 0 <= i < |records| && records[i] == r;
    var j :| 0 <= j < |records| && records[j] == u;
    SamePlace(records, i, j);
  }

  lemma SamePlace(records: seq<Record>, i: nat, j: nat)
    requires Once(records) && i < |records| && j < |records| && records[i].hp == records[j].hp
    ensures i == j
  {
  }

  lemma SocketsApart(records: seq<Record>, s: int, z: int)
    requires Once(records) && s != z
    ensures HpsOfSocket(records, s) !! HpsOfSocket(records, z)
  {
    hide Once;
    forall x | x in HpsOfSocket(records, s) ensures x !in HpsOfSocket(records, z) {
      var r :| r in records && r.socket == s && r.hp == x;
      forall u | u in records && u.socket == z ensures u.hp != x {
        if u.hp == x { OneRecord(records, r, u); }
      }
    }
  }

  lemma CoresApart(records: seq<Record>, c: CoreId, d: CoreId)
    requires Once(records) && c != d
    ensures HpsOfCore(records, c) !! HpsOfCore(records, d)
  {
    hide Once;
    forall x | x in HpsOfCore(records, c) ensures x !in HpsOfCore(records, d) {
      var r :| r in records && r.Core() == c && r.hp == x;
      forall u | u in records && u.Core() == d ensures u.hp != x {
        if u.hp == x { OneRecord(records, r, u); }
      }
    }
  }

  lemma HpIsHeld(tables: Tables, records: seq<Record>, x: int)
    requires Indexes(tables, records) && x in Hps(records)
    ensures Held(tables.socketHp, x) && Held(tables.coreHp, x)
  {
    var r :| r in records && r.hp == x;
    assert x in HpsOfSocket(records, r.socket) && x in At(tables.socketHp, r.socket);
    assert x in HpsOfCore(records, r.Core()) && x in At(tables.coreHp, r.Core());
  }

  /** With each processor listed once, the sockets and the cores each partition the hyper-threads. */
  lemma BasePartitions(tables: Tables, records: seq<Record>)
    requires Indexes(tables, records) && Once(records)
    ensures Partitions(tables.socketHp, tables.hps)
    ensures Partitions(tables.coreHp, tables.hps)
  {
    forall s ensures HpsOfSocket(records, s) <= tables.hps {}
    forall c ensures HpsOfCore(records, c) <= tables.hps {}
    hide HpsOfSocket, HpsOfCore, Hps, Once, At, NoEmptyEntry, Held;
    forall s, z | s != z ensures At(tables.socketHp, s) !! At(tables.socketHp, z) {
      SocketsApart(records, s, z);
    }
    forall c, d | c != d ensures At(tables.coreHp, c) !! At(tables.coreHp, d) {
      CoresApart(records, c, d);
    }
    forall x | x in tables.hps ensures Held(tables.socketHp, x) && Held(tables.coreHp, x) {
      HpIsHeld(tables, records, x);
    }
    assert Disjoint(tables.socketHp);
    assert forall s :: At(tables.socketHp, s) <= tables.hps;
  }

  /** Cores refine sockets: a core's hyper-threads are hyper-threads of the socket it names. */
  lemma CoresRefineSockets(tables: Tables, records: seq<Record>, c: CoreId)
    requires Indexes(tables, records)
    ensures At(tables.coreHp, c) <= At(tables.socketHp, c.socketId)
  {
    assert At(tables.coreHp, c) == HpsOfCore(records, c);
    assert At(tables.socketHp, c.socketId) == HpsOfSocket(records, c.socketId);
  }

  /** The table by inclusion holds, for a socket, exactly the cores that name it; so the direct answer c.socketId
      and the lookup of c by value are the same. */
  lemma SocketCoreExact(tables: Tables, records: seq<Record>, socketCore: map<int, set<CoreId>>, c: CoreId, s: int)
    requires Indexes(tables, records) && Once(records)
    requires Derived(map[], socketCore, tables.socketHp, tables.coreHp, tables.coreHp.Keys)
    ensures c in At(socketCore, s) <==> c in tables.coreHp && c.socketId == s
  {
    BasePartitions(tables, records);
    CoresRefineSockets(tables, records, c);
    hide Indexes, Once;
    assert At(socketCore, s) == At<int, CoreId>(map[], s)
      + (if s in tables.socketHp then Included(tables.socketHp[s], tables.coreHp, tables.coreHp.Keys) else {});
    if c in tables.coreHp {
      assert At(tables.coreHp, c) == tables.coreHp[c] != {};
      InOne(tables.coreHp[c], At(tables.socketHp, c.socketId), At(tables.socketHp, s));
      assert c.socketId != s ==> At(tables.socketHp, c.socketId) !! At(tables.socketHp, s);
    }
  }

  lemma InOne<T>(part: set<T>, a: set<T>, b: set<T>)
    requires part != {} && part <= a
    ensures a !! b ==> !(part <= b)
    ensures b == {} ==> !(part <= b)
  {
    var x := AnyOf(part);
    assert x in a;
  }

  /** Nothing is included in two disjoint sets, so a table by inclusion over disjoint sets is disjoint too. */
  lemma DerivedDisjoint<K(!new), V>(now: map<K, set<V>>, outer: map<K, set<int>>, inner: map<V, set<int>>)
    requires Disjoint(outer) && NoEmptyEntry(inner) && Derived(map[], now, outer, inner, inner.Keys)
    ensures Disjoint(now)
  {
    forall k, j | k != j ensures At(now, k) !! At(now, j) {
      assert At(outer, k) !! At(outer, j);
      forall v | v in At(now, k) ensures v !in At(now, j) {
        assert At(now, k) == At<K, V>(map[], k) + (if k in outer then Included(outer[k], inner, inner.Keys) else {});
        assert At(now, j) == At<K, V>(map[], j) + (if j in outer then Included(outer[j], inner, inner.Keys) else {});
        InOne(inner[v], At(outer, k), At(outer, j));
      }
    }
  }

  lemma NodesPartition(nodeHp: map<int, set<int>>, lists: seq<(int, string)>)
    requires NodesFrom(map[], nodeHp, lists) && NodesApart(lists)
    ensures Disjoint(nodeHp) && NoEmptyEntry(nodeHp)
  {
    forall k, j | k != j ensures At(nodeHp, k) !! At(nodeHp, j) {
      assert At(nodeHp, k) == At<int, int>(map[], k) + CpusOf(lists, k);
      assert At(nodeHp, j) == At<int, int>(map[], j) + CpusOf(lists, j);
      assert CpusOf(lists, k) !! CpusOf(lists, j);
    }
  }

  // A table whose lookups by value and by key are inverse to each other.
  ghost predicate Invertible<K(!new), V>(m: map<K, set<V>>) { Disjoint(m) && NoEmptyEntry(m) }

  /** After a refresh from nothing, every lookup by value inverts the lookup by key in all six tables,
      sockets and cores partition the hyper-threads, and a socket's cores are those that name it. */
  lemma RefreshedTopology(ix: Index, lists: seq<(int, string)>, records: seq<Record>)
    requires Complete(records) && Once(records) && NodesApart(lists) && Body(NO_INDEX, ix, lists, ItemsOf(records))
    ensures Invertible(ix.nodeHp) && Invertible(ix.nodeSocket) && Invertible(ix.nodeCore) && Invertible(ix.socketCore)
    ensures Partitions(ix.tables.socketHp, Hps(records)) && Partitions(ix.tables.coreHp, Hps(records))
    ensures forall c, s :: c in At(ix.socketCore, s) <==> c in ix.tables.coreHp && c.socketId == s
  {
    IndexedAfterBody(ix, lists, records);
    hide Complete, Once, NodesApart, Indexes, NodesFrom, Derived, ReadItems, Disjoint, NoEmptyEntry;
    BasePartitions(ix.tables, records);
    NodesPartition(ix.nodeHp, lists);
    forall c, s ensures c in At(ix.socketCore, s) <==> c in ix.tables.coreHp && c.socketId == s {
      SocketCoreExact(ix.tables, records, ix.socketCore, c, s);
    }
    DerivedDisjoint(ix.nodeSocket, ix.nodeHp, ix.tables.socketHp);
    DerivedDisjoint(ix.nodeCore, ix.nodeHp, ix.tables.coreHp);
    DerivedDisjoint(ix.socketCore, ix.tables.socketHp, ix.tables.coreHp);
    DerivedEntries(ix.nodeSocket, ix.nodeHp, ix.tables.socketHp);
    DerivedEntries(ix.nodeCore, ix.nodeHp, ix.tables.coreHp);
    DerivedEntries(ix.socketCore, ix.tables.socketHp, ix.tables.coreHp);
  }

  lemma DerivedEntries<K(!new), V>(now: map<K, set<V>>, outer: map<K, set<int>>, inner: map<V, set<int>>)
    requires Derived(map[], now, outer, inner, inner.Keys)
    ensures NoEmptyEntry(now)
  {
  }

  lemma IndexedAfterBody(ix: Index, lists: seq<(int, string)>, records: seq<Record>)
    requires Complete(records) && Body(NO_INDEX, ix, lists, ItemsOf(records))
    ensures Indexes(ix.tables, records) && ix.tables.hps == Hps(records)
  {
    assert Indexes(NO_TABLES, []);
    ReadRecords(records, NO_CARRY, NO_TABLES, []);
    assert [] + records == records;
  }

  /** Running the refresh body a second time on the same inputs changes nothing. */
  lemma BodyTwice(once: Index, twice: Index, lists: seq<(int, string)>, records: seq<Record>)
    requires Complete(records)
    requires Body(NO_INDEX, once, lists, ItemsOf(records)) && Body(once, twice, lists, ItemsOf(records))
    ensures twice == once
  {
    IndexedAfterBody(once, lists, records);
    hide Complete, Indexes, ReadItems, NodesFrom, Derived;
    ReadRecords(records, NO_CARRY, once.tables, records);
    IndexesTwice(once.tables, twice.tables, records);
    NodesTwice(once.nodeHp, twice.nodeHp, lists);
    DerivedTwice(once.nodeSocket, twice.nodeSocket, once.nodeHp, once.tables.socketHp);
    DerivedTwice(once.nodeCore, twice.nodeCore, once.nodeHp, once.tables.coreHp);
    DerivedTwice(once.socketCore, twice.socketCore, once.tables.socketHp, once.tables.coreHp);
  }

  lemma NodesTwice(once: map<int, set<int>>, twice: map<int, set<int>>, lists: seq<(int, string)>)
    requires NodesFrom(map[], once, lists) && NodesFrom(once, twice, lists)
    ensures twice == once
  {
    forall k ensures At(twice, k) == At(once, k) {
      assert At(once, k) == At<int, int>(map[], k) + CpusOf(lists, k);
    }
    SameTable(twice, once);
  }

  lemma DerivedTwice<K(!new), V>(once: map<K, set<V>>, twice: map<K, set<V>>, outer: map<K, set<int>>, inner: map<V, set<int>>)
    requires Derived(map[], once, outer, inner, inner.Keys) && Derived(once, twice, outer, inner, inner.Keys)
    ensures twice == once
  {
    forall k ensures At(twice, k) == At(once, k) {
      assert At(once, k) == At<K, V>(map[], k) + (if k in outer then Included(outer[k], inner, inner.Keys) else {});
    }
    SameTable(twice, once);
  }
}
