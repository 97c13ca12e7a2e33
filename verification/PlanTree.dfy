/** Index names in a PostgreSQL execution plan. */
module PlanTree {
  import opened Wrappers

  /** A plan node: the index it uses, the table it reads, whether it is a sequential scan,
      and its children under "Plans" and "Subplans" (empty where the key is absent). */
  datatype Plan = Plan(index: Option<string>, table: Option<string>, seqScan: bool, plans: seq<Plan>, subplans: seq<Plan>)

  function Own(name: Option<string>): seq<string> {
    if name.Some? then [name.value] else []
  }

  /** The index names of a tree, a node before its children. */
  function Indexes(p: Plan): seq<string>
    decreases p, 0
  {
    Own(p.index) + (AllIndexes(p.plans) + AllIndexes(p.subplans))
  }

  function AllIndexes(ps: seq<Plan>): seq<string>
    decreases ps, 1
  {
    if ps == [] then [] else Indexes(ps[0]) + AllIndexes(ps[1..])
  }

  function ReadBy(p: Plan): seq<string> {
    Own(p.table) + if p.seqScan then Own(p.table) else []
  }

  /** The tables read, those scanned sequentially twice. */
  function Tables(p: Plan): seq<string>
    decreases p, 0
  {
    ReadBy(p) + (AllTables(p.plans) + AllTables(p.subplans))
  }

  function AllTables(ps: seq<Plan>): seq<string>
    decreases ps, 1
  {
    if ps == [] then [] else Tables(ps[0]) + AllTables(ps[1..])
  }

  /** The lists that `_extract_indexes_from_plan` is given to append to. */
  class Findings {
    var indexes: seq<string>
    var tables: seq<string>

    constructor ()
      ensures indexes == [] && tables == []
    {
      indexes, tables := [], [];
    }

    /** What one node adds by itself. */
    method Note(p: Plan)
      modifies this
      ensures indexes == old(indexes) + Own(p.index) && tables == old(tables) + ReadBy(p)
    {
      if p.index.Some? {
        indexes := indexes + [p.index.value];
      }
      if p.table.Some? {
        tables := tables + [p.table.value];
      }
      if p.seqScan && p.table.Some? {
        tables := tables + [p.table.value];
      }
    }

    method Extract(p: Plan)
      modifies this
      ensures indexes == old(indexes) + Indexes(p) && tables == old(tables) + Tables(p)
      decreases p, 0
    {
      Note(p);
      ExtractAll(p.plans);
      ExtractAll(p.subplans);
      Joined(old(indexes), Own(p.index), AllIndexes(p.plans), AllIndexes(p.subplans));
      Joined(old(tables), ReadBy(p), AllTables(p.plans), AllTables(p.subplans));
    }

    method ExtractAll(ps: seq<Plan>)
      modifies this
      ensures indexes == old(indexes) + AllIndexes(ps) && tables == old(tables) + AllTables(ps)
      decreases ps, 1
    {
      var i := 0;
      while i < |ps|
        invariant 0 <= i <= |ps|
        invariant indexes + AllIndexes(ps[i..]) == old(indexes) + AllIndexes(ps)
        invariant tables + AllTables(ps[i..]) == old(tables) + AllTables(ps)
      {
        ghost var before, read := indexes, tables;
        Extract(ps[i]);
        FirstOfRest(ps, i);
        Associates(before, Indexes(ps[i]), AllIndexes(ps[i + 1..]));
        Associates(read, Tables(ps[i]), AllTables(ps[i + 1..]));
        i := i + 1;
      }
    }
  }

  lemma Associates(a: seq<string>, b: seq<string>, c: seq<string>)
    ensures (a + b) + c == a + (b + c)
  {
  }

  lemma Joined(a: seq<string>, b: seq<string>, c: seq<string>, d: seq<string>)
    ensures ((a + b) + c) + d == a + (b + (c + d))
  {
  }

  lemma FirstOfRest(ps: seq<Plan>, i: nat)
    requires i < |ps|
    ensures AllIndexes(ps[i..]) == Indexes(ps[i]) + AllIndexes(ps[i + 1..])
    ensures AllTables(ps[i..]) == Tables(ps[i]) + AllTables(ps[i + 1..])
  {
    assert ps[i..][0] == ps[i] && ps[i..][1..] == ps[i + 1..];
  }

  /** `check_node_for_index`: the first node with the name ends the search. */
  predicate Uses(p: Plan, name: string)
    decreases p, 0
  {
    p.index == Some(name) || AnyUses(p.plans, name) || AnyUses(p.subplans, name)
  }

  predicate AnyUses(ps: seq<Plan>, name: string)
    decreases ps, 1
  {
    ps != [] && (Uses(ps[0], name) || AnyUses(ps[1..], name))
  }

  /** The search finds a name exactly when the extraction lists it. */
  lemma {:induction false} UsesIffExtracted(p: Plan, name: string)
    ensures Uses(p, name) <==> name in Indexes(p)
    decreases p, 0
  {
    AnyUsesIffExtracted(p.plans, name);
    AnyUsesIffExtracted(p.subplans, name);
  }

  lemma {:induction false} AnyUsesIffExtracted(ps: seq<Plan>, name: string)
    ensures AnyUses(ps, name) <==> name in AllIndexes(ps)
    decreases ps, 1
  {
    if ps != [] {
      UsesIffExtracted(ps[0], name);
      AnyUsesIffExtracted(ps[1..], name);
    }
  }

  // ---- The order in which nodes are visited ----

  /** All nodes of a tree, a node before its plans and those before its subplans. */
  function Nodes(p: Plan): seq<Plan>
    decreases p, 0
  {
    [p] + AllNodes(p.plans) + AllNodes(p.subplans)
  }

  function AllNodes(ps: seq<Plan>): seq<Plan>
    decreases ps, 1
  {
    if ps == [] then [] else Nodes(ps[0]) + AllNodes(ps[1..])
  }

  function NamesOf(nodes: seq<Plan>): seq<string> {
    if nodes == [] then [] else (if nodes[0].index.Some? then [nodes[0].index.value] else []) + NamesOf(nodes[1..])
  }

  /** A node's table counts once, and once more if the node scans it sequentially. */
  function TablesOf(nodes: seq<Plan>): seq<string> {
    if nodes == [] then []
    else
      var rest := TablesOf(nodes[1..]);
      match nodes[0].table
      case None => rest
      case Some(t) => if nodes[0].seqScan then [t, t] + rest else [t] + rest
  }

  lemma {:induction false} NamesSplit(a: seq<Plan>, b: seq<Plan>)
    ensures NamesOf(a + b) == NamesOf(a) + NamesOf(b) && TablesOf(a + b) == TablesOf(a) + TablesOf(b)
  {
    if a == [] {
      assert a + b == b;
    } else {
      NamesSplit(a[1..], b);
      assert (a + b)[0] == a[0] && (a + b)[1..] == a[1..] + b;
      Associates(if a[0].index.Some? then [a[0].index.value] else [], NamesOf(a[1..]), NamesOf(b));
      if a[0].table.Some? {
        var own := if a[0].seqScan then [a[0].table.value, a[0].table.value] else [a[0].table.value];
        Associates(own, TablesOf(a[1..]), TablesOf(b));
      }
    }
  }

  /** Extraction lists the names and tables of the nodes in pre-order, each as often as it
      occurs, and the tables scanned sequentially twice. */
  lemma {:induction false} ExtractsInPreOrder(p: Plan)
    ensures Indexes(p) == NamesOf(Nodes(p)) && Tables(p) == TablesOf(Nodes(p))
    decreases p, 0
  {
    AllInPreOrder(p.plans);
    AllInPreOrder(p.subplans);
    NamesSplit([p] + AllNodes(p.plans), AllNodes(p.subplans));
    NamesSplit([p], AllNodes(p.plans));
    OneNode(p);
    Associates(Own(p.index), AllIndexes(p.plans), AllIndexes(p.subplans));
    Associates(ReadBy(p), AllTables(p.plans), AllTables(p.subplans));
  }

  lemma OneNode(p: Plan)
    ensures NamesOf([p]) == Own(p.index) && TablesOf([p]) == ReadBy(p)
  {
    assert [p][1..] == [];
  }

  lemma {:induction false} AllInPreOrder(ps: seq<Plan>)
    ensures AllIndexes(ps) == NamesOf(AllNodes(ps)) && AllTables(ps) == TablesOf(AllNodes(ps))
    decreases ps, 1
  {
    if ps != [] {
      ExtractsInPreOrder(ps[0]);
      AllInPreOrder(ps[1..]);
      NamesSplit(Nodes(ps[0]), AllNodes(ps[1..]));
    }
  }
}
