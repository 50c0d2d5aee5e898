/** The topology index read from the text of the node lists and of cpuinfo (src/sysinfo/host/static/node_cpu.cpp). */
module CpuTopology {
  import opened Wrappers
  import opened StrTools
  import opened NodeTopology
  import CpuList

  // ---------- the text of cpuinfo ----------

  // A processor's entry: its three fields in order, among other fields, ended by a blank line.
  datatype Stanza = Stanza(hp: nat, socket: nat, core: nat, tabs: seq<string>, others: seq<seq<Field>>, blank: string) {
    predicate Valid() {
      && |tabs| == 3 && (forall i | 0 <= i < 3 :: AllBlank(tabs[i]))
      && |others| == 4 && (forall i | 0 <= i < 4 :: AllValid(others[i]))
      && AllBlank(blank)
    }

    function Lines(): seq<string>
      requires Valid()
    {
      Texts(others[0]) + ([FieldLine("processor", tabs[0], hp)] + (Texts(others[1]) + ([FieldLine("physical id", tabs[1], socket)] +
        (Texts(others[2]) + ([FieldLine("core id", tabs[2], core)] + (Texts(others[3]) + [blank]))))))
    }

    function AsRecord(): Record
      requires Valid()
    {
      Record(hp, socket, core, [|others[0]|, |others[1]|, |others[2]|, |others[3]|])
    }
  }

  predicate AllValid(fields: seq<Field>) { forall i | 0 <= i < |fields| :: fields[i].Valid() }

  function Texts(fields: seq<Field>): seq<string> { seq(|fields|, i requires 0 <= i < |fields| => fields[i].Text()) }

  predicate WellFormed(stanzas: seq<Stanza>) { forall i | 0 <= i < |stanzas| :: stanzas[i].Valid() }

  function LinesOf(stanzas: seq<Stanza>): seq<string>
    requires WellFormed(stanzas)
  {
    if stanzas == [] then [] else stanzas[0].Lines() + LinesOf(stanzas[1..])
  }

  function Records(stanzas: seq<Stanza>): (records: seq<Record>)
    requires WellFormed(stanzas)
    ensures Complete(records) && |records| == |stanzas|
  {
    seq(|stanzas|, i requires 0 <= i < |stanzas| => stanzas[i].AsRecord())
  }

  lemma ItemsAppend(a: seq<string>, b: seq<string>)
    ensures ItemsOfLines(a + b) == ItemsOfLines(a) + ItemsOfLines(b)
  {
    hide ItemOf;
  }

  lemma FieldsRead(fields: seq<Field>)
    requires AllValid(fields)
    ensures ItemsOfLines(Texts(fields)) == Others(|fields|)
  {
    forall i | 0 <= i < |fields| ensures ItemOf(Texts(fields)[i]) == OtherLine {
      OtherLineRead(fields[i]);
    }
    hide ItemOf;
  }

  lemma LineRead(line: string, rest: seq<string>)
    ensures ItemsOfLines([line] + rest) == [ItemOf(line)] + ItemsOfLines(rest)
  {
    hide ItemOf;
  }

  /** The lines of an entry are read as its record. */
  lemma StanzaRead(z: Stanza)
    requires z.Valid()
    ensures ItemsOfLines(z.Lines()) == z.AsRecord().Items()
  {
    var t3 := Texts(z.others[3]) + [z.blank];
    var t2 := Texts(z.others[2]) + ([FieldLine("core id", z.tabs[2], z.core)] + t3);
    var t1 := Texts(z.others[1]) + ([FieldLine("physical id", z.tabs[1], z.socket)] + t2);
    FieldLinesRead(z.tabs[0], z.hp);
    FieldLinesRead(z.tabs[1], z.socket);
    FieldLinesRead(z.tabs[2], z.core);
    BlankExactly(z.blank);
    hide ItemOf, FieldLine, Texts, ItemsOfLines, AllValid, Others, AllBlank;
    BlankRead(z.blank);
    PartRead(z.others[3], [z.blank]);
    PartRead(z.others[2], [FieldLine("core id", z.tabs[2], z.core)] + t3);
    PartRead(z.others[1], [FieldLine("physical id", z.tabs[1], z.socket)] + t2);
    PartRead(z.others[0], [FieldLine("processor", z.tabs[0], z.hp)] + t1);
    LineRead(FieldLine("core id", z.tabs[2], z.core), t3);
    LineRead(FieldLine("physical id", z.tabs[1], z.socket), t2);
    LineRead(FieldLine("processor", z.tabs[0], z.hp), t1);
  }

  lemma BlankRead(line: string)
    ensures ItemsOfLines([line]) == [ItemOf(line)]
  {
  }

  lemma PartRead(fields: seq<Field>, rest: seq<string>)
    requires AllValid(fields)
    ensures ItemsOfLines(Texts(fields) + rest) == Others(|fields|) + ItemsOfLines(rest)
  {
    FieldsRead(fields);
    hide *;
    ItemsAppend(Texts(fields), rest);
  }

  /** The lines of well-formed cpuinfo are read as the records of its entries. */
  lemma {:induction false} StanzasRead(stanzas: seq<Stanza>)
    requires WellFormed(stanzas)
    ensures ItemsOfLines(LinesOf(stanzas)) == ItemsOf(Records(stanzas))
    decreases |stanzas|
  {
    hide ItemOf;
    hide Stanza.Lines, Record.Items, Stanza.AsRecord, Stanza.Valid;
    if stanzas != [] {
      StanzaRead(stanzas[0]);
      StanzasRead(stanzas[1..]);
      ItemsAppend(stanzas[0].Lines(), LinesOf(stanzas[1..]));
      assert Records(stanzas)[1..] == Records(stanzas[1..]);
    }
  }

  lemma {:induction false} NothingBad(records: seq<Record>)
    requires Complete(records)
    ensures NoBadLine(ItemsOf(records))
    decreases |records|
  {
    if records != [] {
      NothingBad(records[1..]);
      NoneBad(records[0]);
      hide Record.Items;
    }
  }

  lemma NoneBad(r: Record)
    requires |r.gaps| == 4
    ensures NoBadLine(r.Items())
  {
  }

  // ---------- the text of the node lists ----------

  datatype Node = Node(id: int, segments: seq<CpuList.Segment>)

  function TextLists(nodes: seq<Node>): seq<(int, string)> {
    seq(|nodes|, i requires 0 <= i < |nodes| => (nodes[i].id, CpuList.Text(nodes[i].segments)))
  }

  // The lists are of the kind that the parser reads exactly.
  predicate AllHarmless(nodes: seq<Node>) { forall i | 0 <= i < |nodes| :: CpuList.AllHarmless(nodes[i].segments) }

  // The CPUs that are listed for a node.
  ghost function ListedCpus(nodes: seq<Node>, id: int): set<int> {
    if nodes == [] then {} else
    var n := |nodes| - 1;
    ListedCpus(nodes[..n], id) + (if nodes[n].id == id then CpuList.Listed(nodes[n].segments, 0) else {})
  }

  // No CPU is listed for two nodes.
  ghost predicate ListedApart(nodes: seq<Node>) { forall k, j | k != j :: ListedCpus(nodes, k) !! ListedCpus(nodes, j) }

  lemma ListRead(segments: seq<CpuList.Segment>)
    requires CpuList.AllHarmless(segments)
    ensures ListCpus(CpuList.Text(segments)) == Some(CpuList.Listed(segments, 0))
  {
    CpuList.HarmlessIsExact(segments);
  }

  /** What the parser reads for a node are the CPUs listed for it. */
  lemma {:induction false} CpusListed(nodes: seq<Node>, id: int)
    requires AllHarmless(nodes)
    ensures CpusOf(TextLists(nodes), id) == ListedCpus(nodes, id)
    decreases |nodes|
  {
    hide ListCpus, CpuList.Text, CpuList.Listed, CpuList.AllHarmless;
    if nodes != [] {
      var n := |nodes| - 1;
      CpusListed(nodes[..n], id);
      assert TextLists(nodes)[..n] == TextLists(nodes[..n]);
      ListRead(nodes[n].segments);
    }
  }

  lemma ListsAreRead(nodes: seq<Node>)
    requires AllHarmless(nodes)
    ensures ListsRead(TextLists(nodes), |TextLists(nodes)|)
  {
    hide ListCpus, CpuList.Text, CpuList.Listed, CpuList.AllHarmless;
    forall j | 0 <= j < |nodes| ensures ListCpus(TextLists(nodes)[j].1).Some? {
      ListRead(nodes[j].segments);
    }
  }

  lemma TextIsReadable(nodes: seq<Node>, stanzas: seq<Stanza>)
    requires AllHarmless(nodes) && WellFormed(stanzas)
    ensures Readable(TextLists(nodes), LinesOf(stanzas))
  {
    hide ListsRead, NoBadLine, TextLists, LinesOf, ItemsOfLines, ItemsOf, Records, WellFormed, AllHarmless;
    ListsAreRead(nodes);
    StanzasRead(stanzas);
    NothingBad(Records(stanzas));
  }

  // ---------- the index ----------

  // What the index of a machine with these nodes and processors holds: the base tables index the processors,
  // the node table is what is listed, and the derived tables are what inclusion says.
  ghost predicate Topology(ix: Index, nodes: seq<Node>, records: seq<Record>) {
    Base(ix, nodes, records) && Inclusions(ix, nodes) && Inverses(ix)
  }

  ghost predicate Base(ix: Index, nodes: seq<Node>, records: seq<Record>) {
    && (forall k :: At(ix.nodeHp, k) == ListedCpus(nodes, k))
    && Indexes(ix.tables, records)
    && Partitions(ix.tables.socketHp, Hps(records)) && Partitions(ix.tables.coreHp, Hps(records))
  }

  ghost predicate Inclusions(ix: Index, nodes: seq<Node>) {
    && (forall c, s :: c in At(ix.socketCore, s) <==> c in ix.tables.coreHp && c.socketId == s)
    && (forall s, k :: s in At(ix.nodeSocket, k) <==> s in ix.tables.socketHp && ix.tables.socketHp[s] <= ListedCpus(nodes, k))
    && (forall c, k :: c in At(ix.nodeCore, k) <==> c in ix.tables.coreHp && ix.tables.coreHp[c] <= ListedCpus(nodes, k))
  }

  ghost predicate Inverses(ix: Index) {
    Invertible(ix.nodeHp) && Invertible(ix.nodeSocket) && Invertible(ix.nodeCore) && Invertible(ix.socketCore)
  }

  // Every processor has one entry.
  predicate EachOnce(stanzas: seq<Stanza>) { forall i, j | 0 <= i < j < |stanzas| :: stanzas[i].hp != stanzas[j].hp }

  /** From the text of the node lists and of cpuinfo, a refresh of an empty index makes the topology of the machine. */
  lemma TextGivesTopology(ix: Index, nodes: seq<Node>, stanzas: seq<Stanza>)
    requires AllHarmless(nodes) && ListedApart(nodes) && WellFormed(stanzas) && EachOnce(stanzas)
    requires Body(NO_INDEX, ix, TextLists(nodes), ItemsOfLines(LinesOf(stanzas)))
    ensures Topology(ix, nodes, Records(stanzas))
  {
    StanzasRead(stanzas);
    EachIsOnce(stanzas);
    ListedIsApart(nodes);
    hide *;
    RecordsGiveTopology(ix, nodes, TextLists(nodes), Records(stanzas));
  }

  lemma RecordsGiveTopology(ix: Index, nodes: seq<Node>, lists: seq<(int, string)>, records: seq<Record>)
    requires AllHarmless(nodes) && lists == TextLists(nodes) && NodesApart(lists) && Complete(records) && Once(records)
    requires Body(NO_INDEX, ix, lists, ItemsOf(records))
    ensures Topology(ix, nodes, records)
  {
    RefreshedTopology(ix, lists, records);
    IndexedAfterBody(ix, lists, records);
    EntriesAfterBody(ix, records);
    forall k ensures CpusOf(lists, k) == ListedCpus(nodes, k) {
      CpusListed(nodes, k);
    }
    hide AllHarmless, CpusOf, ListedCpus, ItemsOf, ReadItems, Indexes, Once, Hps;
    hide Partitions, Invertible, Complete, TextLists, NodesApart, NodesFrom, Derived, NoEmptyEntry, At;
    NodesHold(ix, nodes, lists);
    InclusionsHold(ix, nodes);
  }

  lemma InclusionsHold(ix: Index, nodes: seq<Node>)
    requires Derived(map[], ix.nodeSocket, ix.nodeHp, ix.tables.socketHp, ix.tables.socketHp.Keys)
    requires Derived(map[], ix.nodeCore, ix.nodeHp, ix.tables.coreHp, ix.tables.coreHp.Keys)
    requires NoEmptyEntry(ix.tables.socketHp) && NoEmptyEntry(ix.tables.coreHp)
    requires forall k :: At(ix.nodeHp, k) == ListedCpus(nodes, k)
    requires forall c, s :: c in At(ix.socketCore, s) <==> c in ix.tables.coreHp && c.socketId == s
    ensures Inclusions(ix, nodes)
  {
    hide Derived, NoEmptyEntry, At, ListedCpus;
    InclusionExact(ix.nodeSocket, ix.nodeHp, ix.tables.socketHp);
    InclusionExact(ix.nodeCore, ix.nodeHp, ix.tables.coreHp);
  }

  lemma EachIsOnce(stanzas: seq<Stanza>)
    requires WellFormed(stanzas) && EachOnce(stanzas)
    ensures Once(Records(stanzas))
  {
    hide Stanza.Valid;
  }

  lemma ListedIsApart(nodes: seq<Node>)
    requires AllHarmless(nodes) && ListedApart(nodes)
    ensures NodesApart(TextLists(nodes))
  {
    forall k ensures CpusOf(TextLists(nodes), k) == ListedCpus(nodes, k) {
      CpusListed(nodes, k);
    }
    hide CpusOf, ListedCpus, TextLists;
    forall k, j | k != j ensures CpusOf(TextLists(nodes), k) !! CpusOf(TextLists(nodes), j) {
      assert ListedCpus(nodes, k) !! ListedCpus(nodes, j);
    }
  }

  lemma NodesHold(ix: Index, nodes: seq<Node>, lists: seq<(int, string)>)
    requires NodesFrom(map[], ix.nodeHp, lists) && forall k :: CpusOf(lists, k) == ListedCpus(nodes, k)
    ensures forall k :: At(ix.nodeHp, k) == ListedCpus(nodes, k)
  {
    hide CpusOf, ListedCpus;
    forall k ensures At(ix.nodeHp, k) == ListedCpus(nodes, k) {
      assert At(ix.nodeHp, k) == At<int, int>(map[], k) + CpusOf(lists, k);
    }
  }

  lemma EntriesAfterBody(ix: Index, records: seq<Record>)
    requires Indexes(ix.tables, records)
    ensures NoEmptyEntry(ix.tables.socketHp) && NoEmptyEntry(ix.tables.coreHp)
  {
  }

  // An entry of a table by inclusion holds exactly the keys whose sets lie within the outer key's.
  lemma InclusionExact<K(!new), V(!new)>(now: map<K, set<V>>, outer: map<K, set<int>>, inner: map<V, set<int>>)
    requires Derived(map[], now, outer, inner, inner.Keys) && NoEmptyEntry(inner)
    ensures forall v, k :: v in At(now, k) <==> v in inner && inner[v] <= At(outer, k)
  {
    forall v, k ensures v in At(now, k) <==> v in inner && inner[v] <= At(outer, k) {
      assert At(now, k) == At<K, V>(map[], k) + (if k in outer then Included(outer[k], inner, inner.Keys) else {});
      if v in inner {
        assert inner[v] != {};
      }
    }
  }

  /** The first refresh of an index, on the text of a machine's files: it succeeds and gives the machine's topology. */
  method FirstRefresh(cpu: NodeCpu, lists: seq<(int, string)>, lines: seq<string>, ghost nodes: seq<Node>, ghost stanzas: seq<Stanza>)
    returns (ok: bool)
    requires !cpu.hasData && cpu.Abs() == NO_INDEX
    requires AllHarmless(nodes) && ListedApart(nodes) && WellFormed(stanzas) && EachOnce(stanzas)
    requires lists == TextLists(nodes) && lines == LinesOf(stanzas)
    modifies cpu
    ensures ok && cpu.hasData && Topology(cpu.Abs(), nodes, Records(stanzas))
  {
    TextIsReadable(nodes, stanzas);
    hide *;
    ok := cpu.Refresh(lists, lines);
    TextGivesTopology(cpu.Abs(), nodes, stanzas);
  }
}
