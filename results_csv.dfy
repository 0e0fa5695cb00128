/**
 * The rows `ResultsProcessor.save_results_to_csv` of
 * util/results_processor.py writes: two banner rows and the column header,
 * then one row per node of each violation, in input order.  The Data column
 * flattens the check items of the node's `any`, `all` and `none` lists.
 */
module ResultsCsv {
  import opened Strings

  /** The `data` of one axe check item, by its Python type. */
  datatype ItemData =
    | NoData                                  // key missing or None
    | ListData(items: seq<string>)
    | DictData(entries: seq<(string, string)>)
    | StrData(text: string)
    | OtherData                               // any other type: ignored

  datatype CheckItem = CheckItem(id: string, data: ItemData)

  /** An entry of a node's `target`: a selector, or a list of them. */
  datatype Target = Selector(text: string) | Selectors(texts: seq<string>)

  /** A node; a missing `any`, `all`, `none` or `target` list is empty. */
  datatype Node = Node(
    html: string, target: seq<Target>, failureSummary: string,
    any: seq<CheckItem>, all: seq<CheckItem>, none: seq<CheckItem>)

  datatype Violation = Violation(
    id: string, description: string, impact: string, help: string, helpUrl: string,
    tags: seq<string>, nodes: seq<Node>)

  const Header: seq<string> :=
    ["ID", "description", "Impact", "Help", "HTML", "Target", "Help URL", "Tags", "Failure Summary", "Data", "Url"]

  const NoDataText: string := "No data available"

  function HeaderRows(url: string): seq<seq<string>> {
    [["VIOLATIONS", " ", " ", " ", " ", " ", " ", " ", " ", " ", " "],
     [url, " ", " ", " ", " ", " ", " ", " ", " ", " ", " "],
     Header]
  }

  /** `k: v` pairs joined with ` | `. */
  function DictEntries(entries: seq<(string, string)>): seq<string>
    decreases |entries|
  {
    if entries == [] then []
    else [entries[0].0 + ": " + entries[0].1] + DictEntries(entries[1..])
  }

  /** What `process_data` appends for one item. */
  function ItemContribution(item: CheckItem): seq<string> {
    match item.data
    case NoData => [item.id]
    case ListData(items) => items
    case DictData(entries) => [Join(DictEntries(entries), " | ")]
    case StrData(text) => [text]
    case OtherData => []
  }

  function ItemsData(items: seq<CheckItem>): seq<string>
    decreases |items|
  {
    if items == [] then []
    else ItemsData(items[..|items| - 1]) + ItemContribution(items[|items| - 1])
  }

  lemma {:induction false} ItemsDataAppend(a: seq<CheckItem>, b: seq<CheckItem>)
    ensures ItemsData(a + b) == ItemsData(a) + ItemsData(b)
    decreases |b|
  {
    if b == [] {
      assert a + b == a;
    } else {
      var front := b[..|b| - 1];
      assert (a + b)[..|a + b| - 1] == a + front;
      assert (a + b)[|a + b| - 1] == b[|b| - 1];
      ItemsDataAppend(a, front);
    }
  }

  /** The data list of a node: its `any`, then `all`, then `none` items. */
  function NodeData(node: Node): seq<string> {
    ItemsData(node.any) + ItemsData(node.all) + ItemsData(node.none)
  }

  /** The items are visited as one list, `any` first, `all` next, `none` last. */
  lemma NodeDataInOrder(node: Node)
    ensures NodeData(node) == ItemsData(node.any + node.all + node.none)
  {
    ItemsDataAppend(node.any, node.all);
    ItemsDataAppend(node.any + node.all, node.none);
  }

  /** The Data column. */
  function FlattenedData(node: Node): string {
    var data := NodeData(node);
    Join(if data == [] then [NoDataText] else data, " | ")
  }

  /** Items that contribute nothing leave the placeholder text. */
  lemma EmptyDataPlaceholder(node: Node)
    requires forall k :: 0 <= k < |node.any| ==> node.any[k].data == OtherData || node.any[k].data == ListData([])
    requires node.all == [] && node.none == []
    ensures FlattenedData(node) == NoDataText
  {
    OtherItemsContributeNothing(node.any);
  }

  lemma {:induction false} OtherItemsContributeNothing(items: seq<CheckItem>)
    requires forall k :: 0 <= k < |items| ==> items[k].data == OtherData || items[k].data == ListData([])
    ensures ItemsData(items) == []
    decreases |items|
  {
    if items != [] {
      OtherItemsContributeNothing(items[..|items| - 1]);
    }
  }

  /** Targets flattened one level: a list contributes each of its selectors. */
  function FlattenTargets(targets: seq<Target>): seq<string>
    decreases |targets|
  {
    if targets == [] then []
    else (match targets[0] case Selector(t) => [t] case Selectors(ts) => ts) + FlattenTargets(targets[1..])
  }

  /** A selector is in the Target column exactly when it is a target or inside a target list. */
  lemma {:induction false} FlattenTargetsMembers(targets: seq<Target>)
    ensures forall s :: s in FlattenTargets(targets) <==>
      exists k :: 0 <= k < |targets| && (targets[k] == Selector(s) || (targets[k].Selectors? && s in targets[k].texts))
    decreases |targets|
  {
    if targets != [] {
      FlattenTargetsMembers(targets[1..]);
      assert forall k :: 1 <= k < |targets| ==> targets[k] == targets[1..][k - 1];
    }
  }

  function NodeRow(url: string, v: Violation, node: Node): seq<string> {
    [v.id, v.description, v.impact, v.help, node.html, Join(FlattenTargets(node.target), " | "),
     v.helpUrl, Join(v.tags, ", "), node.failureSummary, FlattenedData(node), url]
  }

  /** The rows of one violation: one per node, in order. */
  function NodeRows(url: string, v: Violation, nodes: seq<Node>): (rows: seq<seq<string>>)
    ensures |rows| == |nodes|
  {
    seq(|nodes|, k requires 0 <= k < |nodes| => NodeRow(url, v, nodes[k]))
  }

  /** One block of rows per violation. */
  function Blocks(url: string, violations: seq<Violation>): (blocks: seq<seq<seq<string>>>)
    ensures |blocks| == |violations|
  {
    seq(|violations|, k requires 0 <= k < |violations| => NodeRows(url, violations[k], violations[k].nodes))
  }

  /** The blocks laid end to end. */
  function Flatten<T>(blocks: seq<seq<T>>): seq<T>
    decreases |blocks|
  {
    if blocks == [] then [] else Flatten(blocks[..|blocks| - 1]) + blocks[|blocks| - 1]
  }

  lemma {:induction false} FlattenAppend<T>(a: seq<seq<T>>, b: seq<seq<T>>)
    ensures Flatten(a + b) == Flatten(a) + Flatten(b)
    decreases |b|
  {
    if b == [] {
      assert a + b == a;
    } else {
      var front := b[..|b| - 1];
      assert (a + b)[..|a + b| - 1] == a + front;
      assert (a + b)[|a + b| - 1] == b[|b| - 1];
      FlattenAppend(a, front);
    }
  }

  /** Element `j` of block `i` sits after the blocks before it. */
  lemma FlattenIndex<T>(blocks: seq<seq<T>>, i: nat, j: nat)
    requires i < |blocks| && j < |blocks[i]|
    ensures |Flatten(blocks[..i])| + j < |Flatten(blocks)|
    ensures Flatten(blocks)[|Flatten(blocks[..i])| + j] == blocks[i][j]
  {
    var rest := blocks[i + 1..];
    assert blocks == blocks[..i] + [blocks[i]] + rest;
    FlattenAppend(blocks[..i] + [blocks[i]], rest);
    FlattenAppend(blocks[..i], [blocks[i]]);
    assert [blocks[i]][..0] == [];
  }

  /** Every element comes from some block. */
  lemma {:induction false} FlattenMember<T>(blocks: seq<seq<T>>, r: nat)
    requires r < |Flatten(blocks)|
    ensures exists i, j :: 0 <= i < |blocks| && 0 <= j < |blocks[i]| && Flatten(blocks)[r] == blocks[i][j]
    decreases |blocks|
  {
    var front := blocks[..|blocks| - 1];
    if r < |Flatten(front)| {
      FlattenMember(front, r);
      var i, j :| 0 <= i < |front| && 0 <= j < |front[i]| && Flatten(front)[r] == front[i][j];
      assert blocks[i] == front[i];
    } else {
      var j := r - |Flatten(front)|;
      assert Flatten(blocks)[r] == blocks[|blocks| - 1][j];
    }
  }

  /** The rows after the header. */
  function TableRows(url: string, violations: seq<Violation>): seq<seq<string>> {
    Flatten(Blocks(url, violations))
  }

  /** The whole file. */
  function CsvTable(url: string, violations: seq<Violation>): seq<seq<string>> {
    HeaderRows(url) + TableRows(url, violations)
  }

  /** The number of (violation, node) pairs. */
  function NodeCount(violations: seq<Violation>): nat
    decreases |violations|
  {
    if violations == [] then 0
    else NodeCount(violations[..|violations| - 1]) + |violations[|violations| - 1].nodes|
  }

  lemma BlocksPrefix(url: string, violations: seq<Violation>, i: nat)
    requires i <= |violations|
    ensures Blocks(url, violations)[..i] == Blocks(url, violations[..i])
  {
  }

  /** One row per (violation, node) pair. */
  lemma {:induction false} TableRowsCount(url: string, violations: seq<Violation>)
    ensures |TableRows(url, violations)| == NodeCount(violations)
    decreases |violations|
  {
    if violations != [] {
      var n := |violations| - 1;
      BlocksPrefix(url, violations, n);
      TableRowsCount(url, violations[..n]);
    }
  }

  /** Row `NodeCount(violations[..i]) + j` of the table is the row of node `j` of violation `i`. */
  lemma TableRowAt(url: string, violations: seq<Violation>, i: nat, j: nat)
    requires i < |violations| && j < |violations[i].nodes|
    ensures NodeCount(violations[..i]) + j < |TableRows(url, violations)|
    ensures TableRows(url, violations)[NodeCount(violations[..i]) + j] == NodeRow(url, violations[i], violations[i].nodes[j])
  {
    FlattenIndex(Blocks(url, violations), i, j);
    BlocksPrefix(url, violations, i);
    TableRowsCount(url, violations[..i]);
  }

  /** Three header rows of eleven fields, then one row per (violation, node) pair. */
  lemma CsvTableShape(url: string, violations: seq<Violation>)
    ensures |CsvTable(url, violations)| == 3 + NodeCount(violations)
    ensures CsvTable(url, violations)[..3] == HeaderRows(url)
    ensures forall r :: 0 <= r < |CsvTable(url, violations)| ==> |CsvTable(url, violations)[r]| == |Header| == 11
  {
    TableRowsCount(url, violations);
    var table := CsvTable(url, violations);
    forall r | 3 <= r < |table| ensures |table[r]| == 11 {
      RowIsNodeRow(url, violations, r - 3);
    }
  }

  /** The row of node `j` of violation `i` sits at `3 + NodeCount(violations[..i]) + j`: input order is kept. */
  lemma CsvRowOfPair(url: string, violations: seq<Violation>, i: nat, j: nat)
    requires i < |violations| && j < |violations[i].nodes|
    ensures 3 + NodeCount(violations[..i]) + j < |CsvTable(url, violations)|
    ensures CsvTable(url, violations)[3 + NodeCount(violations[..i]) + j] == NodeRow(url, violations[i], violations[i].nodes[j])
  {
    TableRowAt(url, violations, i, j);
  }

  /** Every row after the header is the row of some (violation, node) pair. */
  lemma RowIsNodeRow(url: string, violations: seq<Violation>, r: nat)
    requires r < |TableRows(url, violations)|
    ensures exists i, j ::
      0 <= i < |violations| && 0 <= j < |violations[i].nodes| &&
      TableRows(url, violations)[r] == NodeRow(url, violations[i], violations[i].nodes[j])
  {
    var blocks := Blocks(url, violations);
    FlattenMember(blocks, r);
    var i, j :| 0 <= i < |blocks| && 0 <= j < |blocks[i]| && Flatten(blocks)[r] == blocks[i][j];
    assert blocks[i][j] == NodeRow(url, violations[i], violations[i].nodes[j]);
  }

  lemma ItemsDataSnoc(acc: seq<string>, items: seq<CheckItem>, k: nat)
    requires k < |items|
    ensures acc + ItemsData(items[..k]) + ItemContribution(items[k]) == acc + ItemsData(items[..k + 1])
  {
    assert items[..k + 1][..k] == items[..k];
  }

  /** `process_data` applied to each item in turn. */
  method AppendItemsData(dataList: seq<string>, items: seq<CheckItem>) returns (dataList': seq<string>)
    ensures dataList' == dataList + ItemsData(items)
  {
    dataList' := dataList;
    var k := 0;
    while k < |items|
      invariant 0 <= k <= |items|
      invariant dataList' == dataList + ItemsData(items[..k])
    {
      var item := items[k];
      ghost var before := dataList';
      match item.data {
        case NoData => dataList' := dataList' + [item.id];
        case ListData(values) => dataList' := dataList' + values;
        case DictData(entries) => dataList' := dataList' + [Join(DictEntries(entries), " | ")];
        case StrData(text) => dataList' := dataList' + [text];
        case OtherData =>
      }
      assert dataList' == before + ItemContribution(item);
      ItemsDataSnoc(dataList, items, k);
      k := k + 1;
    }
    assert items[..k] == items;
  }

  function GroupsData(groups: seq<seq<CheckItem>>): seq<string>
    decreases |groups|
  {
    if groups == [] then [] else GroupsData(groups[..|groups| - 1]) + ItemsData(groups[|groups| - 1])
  }

  /** The data list of one node: the `any`, `all` and `none` lists in that order. */
  method CollectData(node: Node) returns (dataList: seq<string>)
    ensures dataList == NodeData(node)
  {
    var groups := [node.any, node.all, node.none];
    dataList := [];
    var g := 0;
    while g < |groups|
      invariant 0 <= g <= |groups|
      invariant dataList == GroupsData(groups[..g])
    {
      dataList := AppendItemsData(dataList, groups[g]);
      assert groups[..g + 1][..g] == groups[..g];
      g := g + 1;
    }
    assert groups[..g] == groups;
    assert groups[..2] == [node.any, node.all];
    assert groups[..2][..1] == [node.any];
    assert GroupsData([node.any]) == ItemsData(node.any);
    assert GroupsData(groups) == GroupsData(groups[..2]) + ItemsData(node.none);
  }

  /** The row written for one node; `tags` is the violation's tags joined once per violation. */
  method NodeRowOf(url: string, violation: Violation, tags: string, node: Node) returns (row: seq<string>)
    requires tags == Join(violation.tags, ", ")
    ensures row == NodeRow(url, violation, node)
  {
    var dataList := CollectData(node);
    if dataList == [] {
      dataList := dataList + [NoDataText];
    }
    var flattenedData := Join(dataList, " | ");
    var flattenedTargets := Join(FlattenTargets(node.target), " | ");
    row := [violation.id, violation.description, violation.impact, violation.help, node.html,
            flattenedTargets, violation.helpUrl, tags, node.failureSummary, flattenedData, url];
  }

  lemma NodeRowsSnoc(url: string, violation: Violation, j: nat, rows: seq<seq<string>>)
    requires j < |violation.nodes|
    ensures rows + NodeRows(url, violation, violation.nodes[..j]) + [NodeRow(url, violation, violation.nodes[j])]
      == rows + NodeRows(url, violation, violation.nodes[..j + 1])
  {
    assert NodeRows(url, violation, violation.nodes[..j]) + [NodeRow(url, violation, violation.nodes[j])]
      == NodeRows(url, violation, violation.nodes[..j + 1]);
  }

  /** The rows of one violation: one per node, in order. */
  method AppendNodeRows(url: string, violation: Violation, rows: seq<seq<string>>) returns (rows': seq<seq<string>>)
    ensures rows' == rows + NodeRows(url, violation, violation.nodes)
  {
    rows' := rows;
    var tags := Join(violation.tags, ", ");
    var j := 0;
    while j < |violation.nodes|
      invariant 0 <= j <= |violation.nodes|
      invariant rows' == rows + NodeRows(url, violation, violation.nodes[..j])
    {
      var row := NodeRowOf(url, violation, tags, violation.nodes[j]);
      rows' := rows' + [row];
      NodeRowsSnoc(url, violation, j, rows);
      j := j + 1;
    }
    assert violation.nodes[..j] == violation.nodes;
  }

  lemma TableRowsSnoc(url: string, violations: seq<Violation>, i: nat, rows: seq<seq<string>>)
    requires i < |violations|
    ensures rows + TableRows(url, violations[..i]) + NodeRows(url, violations[i], violations[i].nodes)
      == rows + TableRows(url, violations[..i + 1])
  {
    var blocks := Blocks(url, violations[..i + 1]);
    assert blocks[..i] == Blocks(url, violations[..i]);
  }

  /** The rows of the violations, in order, after `rows`. */
  method AppendTableRows(url: string, violations: seq<Violation>, rows: seq<seq<string>>) returns (rows': seq<seq<string>>)
    ensures rows' == rows + TableRows(url, violations)
  {
    rows' := rows;
    var i := 0;
    while i < |violations|
      invariant 0 <= i <= |violations|
      invariant rows' == rows + TableRows(url, violations[..i])
    {
      rows' := AppendNodeRows(url, violations[i], rows');
      TableRowsSnoc(url, violations, i, rows);
      i := i + 1;
    }
    assert violations[..i] == violations;
  }

  /** `save_results_to_csv` as the list of rows it writes. */
  method CsvRows(url: string, violations: seq<Violation>) returns (rows: seq<seq<string>>)
    ensures rows == CsvTable(url, violations)
  {
    rows := AppendTableRows(url, violations, HeaderRows(url));
  }
}
