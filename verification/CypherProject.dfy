/** WITH and RETURN: grouping, DISTINCT, ORDER BY, SKIP and LIMIT of the read-only Cypher engine
    (cvcdocdb/nx_cypher.py, `_Evaluator.project`). */
module CypherProject {
  import opened Common
  import opened CypherValues
  import opened CypherEval
  import opened CypherMatch

  /** An item of a projection, with the name it goes by and its text in the query. */
  datatype Item = Item(e: Expr, alias: string, text: string)

  datatype SortKey = SortKey(e: Expr, text: string, desc: bool)

  datatype Projection = Projection(
    items: seq<Item>,
    distinct: bool,
    order: seq<SortKey>,
    skip: Option<Expr>,
    limit: Option<Expr>,
    filter: Option<Expr>)

  /** A projected row and the variables its ORDER BY expressions may use. */
  datatype Entry = Entry(out: Row, scope: Row)

  type Key = seq<CVal>

  // --- Grouping ------------------------------------------------------------

  /** The values of the grouping items, as the dict of groups compares them. */
  function KeyOf(c: Context, keys: seq<Expr>, row: Row): Result<Key, CypherError> {
    var vs :- EvalItems(c.g, c.params, keys, row, None);
    Ok(seq(|vs|, i requires 0 <= i < |vs| => Hashed(vs[i])))
  }

  /** The rows whose key is `key`, in order. */
  function RowsWith(c: Context, keys: seq<Expr>, rows: seq<Row>, key: Key): seq<Row> {
    if rows == [] then []
    else
      var before := RowsWith(c, keys, rows[..|rows| - 1], key);
      if KeyOf(c, keys, rows[|rows| - 1]) == Ok(key) then before + [rows[|rows| - 1]] else before
  }

  /** Rows by key, and the keys in the order in which they first occurred. */
  ghost predicate Grouped(c: Context, keys: seq<Expr>, rows: seq<Row>, names: seq<Key>, groups: map<Key, seq<Row>>) {
    && Distinct(names) && (forall k :: k in groups <==> k in names)
    && (forall i | 0 <= i < |rows| :: KeyOf(c, keys, rows[i]).Ok? && KeyOf(c, keys, rows[i]).value in groups)
    && (forall k | k in groups :: groups[k] == RowsWith(c, keys, rows, k) && groups[k] != [])
  }

  lemma RowsWithMore(c: Context, keys: seq<Expr>, rows: seq<Row>, i: nat, key: Key)
    requires i < |rows|
    ensures RowsWith(c, keys, rows[..i + 1], key) ==
            RowsWith(c, keys, rows[..i], key) + if KeyOf(c, keys, rows[i]) == Ok(key) then [rows[i]] else []
  {
    hide KeyOf;
    assert rows[..i + 1][..i] == rows[..i];
  }

  lemma {:induction false} RowsWithNone(c: Context, keys: seq<Expr>, rows: seq<Row>, key: Key)
    requires forall i | 0 <= i < |rows| :: KeyOf(c, keys, rows[i]) != Ok(key)
    ensures RowsWith(c, keys, rows, key) == []
  {
    hide KeyOf;
    if rows != [] {
      var n := |rows| - 1;
      forall i | 0 <= i < n ensures KeyOf(c, keys, rows[..n][i]) != Ok(key) { assert rows[..n][i] == rows[i]; }
      RowsWithNone(c, keys, rows[..n], key);
    }
  }

  lemma GroupedMore(c: Context, keys: seq<Expr>, rows: seq<Row>, i: nat, names: seq<Key>, groups: map<Key, seq<Row>>, key: Key)
    requires i < |rows| && Grouped(c, keys, rows[..i], names, groups) && KeyOf(c, keys, rows[i]) == Ok(key)
    ensures Grouped(c, keys, rows[..i + 1], if key in groups then names else names + [key],
                    groups[key := (if key in groups then groups[key] else []) + [rows[i]]])
  {
    hide KeyOf, RowsWith;
    var names' := if key in groups then names else names + [key];
    var groups' := groups[key := (if key in groups then groups[key] else []) + [rows[i]]];
    if key !in groups {
      assert forall j | 0 <= j < i :: rows[..i][j] == rows[j];
      RowsWithNone(c, keys, rows[..i], key);
    }
    forall k | k in groups' ensures groups'[k] == RowsWith(c, keys, rows[..i + 1], k) {
      RowsWithMore(c, keys, rows, i, k);
    }
    var longer := rows[..i + 1];
    forall j | 0 <= j < |longer| ensures KeyOf(c, keys, longer[j]).Ok? && KeyOf(c, keys, longer[j]).value in groups' {
      if j < i { assert longer[j] == rows[..i][j]; }
    }
    assert forall k :: k in groups' <==> k in names';
  }

  /** The grouping loop of `project`. */
  method Group(c: Context, keys: seq<Expr>, rows: seq<Row>)
    returns (r: Result<map<Key, seq<Row>>, CypherError>, names: seq<Key>)
    ensures r.Ok? <==> forall i | 0 <= i < |rows| :: KeyOf(c, keys, rows[i]).Ok?
    ensures r.Ok? ==> Grouped(c, keys, rows, names, r.value)
  {
    names := [];
    var groups: map<Key, seq<Row>> := map[];
    assert Grouped(c, keys, rows[..0], names, groups);
    hide *;
    for i := 0 to |rows|
      invariant Grouped(c, keys, rows[..i], names, groups)
      invariant forall j | 0 <= j < i :: KeyOf(c, keys, rows[j]).Ok?
    {
      var key := KeyOf(c, keys, rows[i]);
      if key.Err? { return Err(key.error), names; }
      GroupedMore(c, keys, rows, i, names, groups, key.value);
      names := if key.value in groups then names else names + [key.value];
      groups := groups[key.value := (if key.value in groups then groups[key.value] else []) + [rows[i]]];
    }
    assert rows[..|rows|] == rows;
    return Ok(groups), names;
  }

  function Total(c: Context, keys: seq<Expr>, rows: seq<Row>, names: seq<Key>): nat {
    if names == [] then 0 else |RowsWith(c, keys, rows, names[0])| + Total(c, keys, rows, names[1..])
  }

  lemma {:induction false} TotalMore(c: Context, keys: seq<Expr>, rows: seq<Row>, i: nat, names: seq<Key>, key: Key)
    requires i < |rows| && Distinct(names) && KeyOf(c, keys, rows[i]) == Ok(key)
    ensures Total(c, keys, rows[..i + 1], names) == Total(c, keys, rows[..i], names) + if key in names then 1 else 0
    decreases |names|
  {
    hide KeyOf, RowsWith;
    if names != [] {
      RowsWithMore(c, keys, rows, i, names[0]);
      assert names == [names[0]] + names[1..];
      assert forall k | k in names[1..] :: k != names[0];
      assert Distinct(names[1..]);
      TotalMore(c, keys, rows, i, names[1..], key);
    }
  }

  lemma {:induction false} TotalNone(c: Context, keys: seq<Expr>, names: seq<Key>)
    ensures Total(c, keys, [], names) == 0
    decreases |names|
  {
    if names != [] { TotalNone(c, keys, names[1..]); }
  }

  /** The groups partition the rows: their sizes add up to the number of rows. */
  lemma {:induction false} GroupSizesAddUp(c: Context, keys: seq<Expr>, rows: seq<Row>, i: nat, names: seq<Key>)
    requires i <= |rows| && Distinct(names)
    requires forall j | 0 <= j < |rows| :: KeyOf(c, keys, rows[j]).Ok? && KeyOf(c, keys, rows[j]).value in names
    ensures Total(c, keys, rows[..i], names) == i
    decreases i
  {
    hide KeyOf, RowsWith, Distinct;
    if i == 0 {
      TotalNone(c, keys, names);
    } else {
      GroupSizesAddUp(c, keys, rows, i - 1, names);
      TotalMore(c, keys, rows, i - 1, names, KeyOf(c, keys, rows[i - 1]).value);
    }
  }

  // --- Projecting ----------------------------------------------------------

  function Values(c: Context, items: seq<Item>, row: Row, group: Option<seq<Row>>): Result<Row, CypherError> {
    if items == [] then Ok(map[])
    else
      var n := |items| - 1;
      var before :- Values(c, items[..n], row, group);
      var v :- Eval(c.g, c.params, items[n].e, row, group);
      Ok(before[items[n].alias := v])
  }

  predicate Aggregating(items: seq<Item>) {
    exists i :: 0 <= i < |items| && HasAggregate(items[i].e)
  }

  /** The items that group: those without an aggregation. */
  function GroupingKeys(items: seq<Item>): seq<Expr> {
    if items == [] then []
    else (if HasAggregate(items[0].e) then [] else [items[0].e]) + GroupingKeys(items[1..])
  }

  /** One entry per row, which also sees the row's own variables. */
  ghost predicate OnePerRow(c: Context, items: seq<Item>, rows: seq<Row>, entries: seq<Entry>) {
    |entries| == |rows| && forall i | 0 <= i < |rows| ::
      var out := Values(c, items, rows[i], None); out.Ok? && entries[i] == Entry(out.value, rows[i] + out.value)
  }

  method ProjectRows(c: Context, items: seq<Item>, rows: seq<Row>) returns (r: Result<seq<Entry>, CypherError>)
    ensures r.Ok? <==> forall i | 0 <= i < |rows| :: Values(c, items, rows[i], None).Ok?
    ensures r.Ok? ==> OnePerRow(c, items, rows, r.value)
  {
    hide Values;
    var entries: seq<Entry> := [];
    for i := 0 to |rows|
      invariant |entries| == i
      invariant forall j | 0 <= j < i :: Values(c, items, rows[j], None).Ok?
                                         && entries[j] == var out := Values(c, items, rows[j], None).value; Entry(out, rows[j] + out)
    {
      var out := Values(c, items, rows[i], None);
      if out.Err? { return Err(out.error); }
      entries := entries + [Entry(out.value, rows[i] + out.value)];
    }
    return Ok(entries);
  }

  /** The rows of a group, the first of which gives the grouping items their values. */
  function GroupEntry(c: Context, items: seq<Item>, group: seq<Row>): Result<Entry, CypherError> {
    var out :- Values(c, items, if group != [] then group[0] else map[], Some(group));
    Ok(Entry(out, out))
  }

  /** One entry per group of rows with the same key, every row in one of them; without grouping items
      there is a group even of no rows. */
  ghost predicate OnePerGroup(c: Context, items: seq<Item>, rows: seq<Row>, names: seq<Key>, entries: seq<Entry>) {
    var keys := GroupingKeys(items);
    && |entries| == |names| && Distinct(names)
    && (forall i | 0 <= i < |rows| :: KeyOf(c, keys, rows[i]).Ok? && KeyOf(c, keys, rows[i]).value in names)
    && (forall i | 0 <= i < |names| :: GroupEntry(c, items, RowsWith(c, keys, rows, names[i])) == Ok(entries[i]))
    && (rows == [] ==> |entries| == if keys == [] then 1 else 0)
    && (rows != [] ==> forall i | 0 <= i < |names| :: RowsWith(c, keys, rows, names[i]) != [])
  }

  /** Every row has a key, and every group its entry. */
  ghost predicate GroupsOk(c: Context, items: seq<Item>, rows: seq<Row>) {
    var keys := GroupingKeys(items);
    && (forall i | 0 <= i < |rows| ::
          KeyOf(c, keys, rows[i]).Ok? && GroupEntry(c, items, RowsWith(c, keys, rows, KeyOf(c, keys, rows[i]).value)).Ok?)
    && (rows == [] && keys == [] ==> GroupEntry(c, items, []).Ok?)
  }

  method ProjectGroups(c: Context, items: seq<Item>, rows: seq<Row>) returns (r: Result<seq<Entry>, CypherError>, ghost names: seq<Key>)
    ensures r.Ok? <==> GroupsOk(c, items, rows)
    ensures r.Ok? ==> OnePerGroup(c, items, rows, names, r.value)
  {
    hide GroupEntry, KeyOf, RowsWith, GroupingKeys;
    var keys := GroupingKeys(items);
    names := [];
    var grouped, order := Group(c, keys, rows);
    if grouped.Err? { return Err(grouped.error), []; }
    var groups := grouped.value;
    NamesAndRows(c, keys, rows, order, groups);
    if order == [] && keys == [] {
      order, groups := [[]], map[[] := []];
    }
    names := order;
    assert forall i | 0 <= i < |order| :: order[i] in groups && groups[order[i]] == RowsWith(c, keys, rows, order[i]);
    var entries: seq<Entry> := [];
    for k := 0 to |order|
      invariant |entries| == k
      invariant forall i | 0 <= i < k :: GroupEntry(c, items, groups[order[i]]) == Ok(entries[i])
    {
      var entry := GroupEntry(c, items, groups[order[k]]);
      if entry.Err? {
        NoEntry(c, items, rows, grouped.value, order, k);
        return Err(entry.error), names;
      }
      entries := entries + [entry.value];
    }
    EveryEntry(c, items, rows, order, entries);
    return Ok(entries), names;
  }

  lemma NoEntry(c: Context, items: seq<Item>, rows: seq<Row>, groups: map<Key, seq<Row>>, order: seq<Key>, k: nat)
    requires k < |order| && GroupEntry(c, items, RowsWith(c, GroupingKeys(items), rows, order[k])).Err?
    requires (exists names :: Grouped(c, GroupingKeys(items), rows, names, groups))
    requires order[k] in groups || (rows == [] && GroupingKeys(items) == [] && order == [[]])
    ensures !GroupsOk(c, items, rows)
  {
    var keys := GroupingKeys(items);
    hide GroupEntry, KeyOf, GroupingKeys;
    if order[k] in groups {
      var names :| Grouped(c, keys, rows, names, groups);
      assert groups[order[k]] == RowsWith(c, keys, rows, order[k]) && groups[order[k]] != [];
      RowsWithSome(c, keys, rows, order[k]);
    } else {
      assert RowsWith(c, keys, rows, order[k]) == [];
    }
  }

  lemma {:induction false} RowsWithSome(c: Context, keys: seq<Expr>, rows: seq<Row>, key: Key)
    requires RowsWith(c, keys, rows, key) != []
    ensures exists i :: 0 <= i < |rows| && KeyOf(c, keys, rows[i]) == Ok(key)
  {
    hide KeyOf;
    var n := |rows| - 1;
    if KeyOf(c, keys, rows[n]) != Ok(key) {
      RowsWithSome(c, keys, rows[..n], key);
      var i :| 0 <= i < n && KeyOf(c, keys, rows[..n][i]) == Ok(key);
      assert rows[i] == rows[..n][i];
    }
  }

  lemma EveryEntry(c: Context, items: seq<Item>, rows: seq<Row>, order: seq<Key>, entries: seq<Entry>)
    requires |entries| == |order|
    requires var keys := GroupingKeys(items);
             && (forall i | 0 <= i < |rows| :: KeyOf(c, keys, rows[i]).Ok? && KeyOf(c, keys, rows[i]).value in order)
             && (forall i | 0 <= i < |order| :: GroupEntry(c, items, RowsWith(c, keys, rows, order[i])) == Ok(entries[i]))
             && (rows == [] && keys == [] ==> order != [])
    ensures GroupsOk(c, items, rows)
  {
    var keys := GroupingKeys(items);
    hide GroupEntry, KeyOf, GroupingKeys;
    forall i | 0 <= i < |rows| ensures GroupEntry(c, items, RowsWith(c, keys, rows, KeyOf(c, keys, rows[i]).value)).Ok? {
      var j :| 0 <= j < |order| && order[j] == KeyOf(c, keys, rows[i]).value;
    }
    if rows == [] && keys == [] { assert RowsWith(c, keys, rows, order[0]) == []; }
  }

  lemma NamesAndRows(c: Context, keys: seq<Expr>, rows: seq<Row>, names: seq<Key>, groups: map<Key, seq<Row>>)
    requires Grouped(c, keys, rows, names, groups)
    ensures rows != [] <==> names != []
    ensures rows == [] ==> RowsWith(c, keys, rows, []) == []
  {
    if rows != [] { assert KeyOf(c, keys, rows[0]).value in names; }
    if names != [] { assert names[0] in groups; }
  }

  /** `count(*)` is the size of the group. */
  lemma {:induction false} CountStarCounts(c: Context, items: seq<Item>, k: nat, row: Row, group: seq<Row>)
    requires k < |items| && items[k].e == CountStar && Values(c, items, row, Some(group)).Ok?
    requires forall i | k < i < |items| :: items[i].alias != items[k].alias
    ensures var out := Values(c, items, row, Some(group)).value;
            items[k].alias in out && out[items[k].alias] == Num(|group| as real)
  {
    var n := |items| - 1;
    if k < n { CountStarCounts(c, items[..n], k, row, group); }
  }

  // --- DISTINCT ------------------------------------------------------------

  /** Two rows that are one for DISTINCT. */
  predicate SameRow(a: Row, b: Row) {
    a.Keys == b.Keys && forall k | k in a :: Hashed(a[k]) == Hashed(b[k])
  }

  lemma SameRowTransitive(a: Row, b: Row, c: Row)
    requires SameRow(a, b) && SameRow(b, c)
    ensures SameRow(a, c) && SameRow(b, a)
  {
    hide Hashed;
  }

  /** The entries whose row did not occur before. */
  function UniqueEntries(entries: seq<Entry>): seq<Entry> {
    if entries == [] then []
    else
      var n := |entries| - 1;
      var before := UniqueEntries(entries[..n]);
      if exists i :: 0 <= i < n && SameRow(entries[i].out, entries[n].out) then before else before + [entries[n]]
  }

  /** DISTINCT keeps one entry of each row. */
  lemma {:induction false} UniqueEntriesAre(entries: seq<Entry>)
    ensures var unique := UniqueEntries(entries);
            && (forall i, j | 0 <= i < j < |unique| :: !SameRow(unique[i].out, unique[j].out))
            && (forall e | e in unique :: e in entries)
            && (forall i | 0 <= i < |entries| :: exists j :: 0 <= j < |unique| && SameRow(unique[j].out, entries[i].out))
  {
    hide SameRow;
    if entries != [] {
      var n := |entries| - 1;
      UniqueEntriesAre(entries[..n]);
      var before, unique := UniqueEntries(entries[..n]), UniqueEntries(entries);
      assert entries == entries[..n] + [entries[n]];
      forall i | 0 <= i < |entries| ensures exists j :: 0 <= j < |unique| && SameRow(unique[j].out, entries[i].out) {
        if i < n {
          assert entries[..n][i] == entries[i];
          var j :| 0 <= j < |before| && SameRow(before[j].out, entries[i].out);
          assert unique[j] == before[j];
        } else if unique == before {
          var m :| 0 <= m < n && SameRow(entries[m].out, entries[n].out);
          assert entries[..n][m] == entries[m];
          var j :| 0 <= j < |before| && SameRow(before[j].out, entries[m].out);
          SameRowTransitive(before[j].out, entries[m].out, entries[n].out);
        } else {
          assert unique[|before|] == entries[n];
          SameRowItself(entries[n].out);
        }
      }
      if unique != before {
        forall j | 0 <= j < |before| ensures !SameRow(before[j].out, entries[n].out) {
          assert before[j] in entries[..n];
          var m :| 0 <= m < n && entries[..n][m] == before[j];
          assert entries[m] == before[j];
        }
      }
    }
  }

  lemma SameRowItself(a: Row)
    ensures SameRow(a, a)
  {
  }

  // --- ORDER BY ------------------------------------------------------------

  /** `cmp`: the first key that differs decides, in its own direction. */
  function CompareKeys(order: seq<bool>, a: Key, b: Key): int
    requires |order| == |a| == |b|
  {
    if order == [] then 0
    else
      var x := OrderCmp(a[0], b[0]);
      if x != 0 then (if order[0] then -x else x) else CompareKeys(order[1..], a[1..], b[1..])
  }

  lemma {:induction false} KeysAntisymmetric(order: seq<bool>, a: Key, b: Key)
    requires |order| == |a| == |b|
    ensures CompareKeys(order, a, b) == -CompareKeys(order, b, a)
  {
    if order != [] {
      OrderAntisymmetric(a[0], b[0]);
      KeysAntisymmetric(order[1..], a[1..], b[1..]);
    }
  }

  predicate AllOfKind(k: Key, kind: nat) {
    forall i | 0 <= i < |k| :: OfKind(k[i], kind)
  }

  lemma {:induction false} KeysTransitive(order: seq<bool>, a: Key, b: Key, c: Key, kind: nat)
    requires |order| == |a| == |b| == |c| && AllOfKind(a, kind) && AllOfKind(b, kind) && AllOfKind(c, kind)
    requires CompareKeys(order, a, b) <= 0 && CompareKeys(order, b, c) <= 0
    ensures CompareKeys(order, a, c) <= 0
  {
    if order != [] {
      hide OfKind;
      OrderAntisymmetric(a[0], b[0]);
      OrderAntisymmetric(b[0], c[0]);
      OrderAntisymmetric(a[0], c[0]);
      if order[0] { OrderTransitive(c[0], b[0], a[0], kind); } else { OrderTransitive(a[0], b[0], c[0], kind); }
      if OrderCmp(a[0], b[0]) == 0 && OrderCmp(b[0], c[0]) == 0 {
        KeysTransitive(order[1..], a[1..], b[1..], c[1..], kind);
      }
    }
  }

  /** Entry `i` comes before entry `j`: its keys are smaller, or level and it was first. */
  predicate Before(order: seq<bool>, keys: seq<Key>, i: nat, j: nat)
    requires i < |keys| && j < |keys| && forall k | 0 <= k < |keys| :: |keys[k]| == |order|
  {
    var x := CompareKeys(order, keys[i], keys[j]);
    x < 0 || (x == 0 && i < j)
  }

  /** The keys have the right length and one kind of dates, if any. */
  predicate Sortable(order: seq<bool>, keys: seq<Key>, kind: nat) {
    forall k | 0 <= k < |keys| :: |keys[k]| == |order| && AllOfKind(keys[k], kind)
  }

  /** `places` lists each of the first `n` entries once. */
  ghost predicate Shuffle(n: nat, places: seq<nat>) {
    |places| == n && (forall i | 0 <= i < n :: places[i] < n) && Distinct(places)
  }

  /** A stable sorted arrangement of the first `n` entries. */
  ghost predicate Arranged(order: seq<bool>, keys: seq<Key>, n: nat, places: seq<nat>)
    requires n <= |keys| && forall k | 0 <= k < |keys| :: |keys[k]| == |order|
  {
    Shuffle(n, places) && forall i, j | 0 <= i < j < n :: Before(order, keys, places[i], places[j])
  }

  lemma BeforeTransitive(order: seq<bool>, keys: seq<Key>, kind: nat, i: nat, j: nat, k: nat)
    requires Sortable(order, keys, kind) && i < |keys| && j < |keys| && k < |keys|
    requires Before(order, keys, i, j) && Before(order, keys, j, k)
    ensures Before(order, keys, i, k)
  {
    KeysTransitive(order, keys[i], keys[j], keys[k], kind);
    if CompareKeys(order, keys[i], keys[k]) == 0 {
      KeysAntisymmetric(order, keys[i], keys[k]);
      KeysAntisymmetric(order, keys[i], keys[j]);
      KeysAntisymmetric(order, keys[j], keys[k]);
      KeysTransitive(order, keys[k], keys[i], keys[j], kind);
      KeysTransitive(order, keys[j], keys[k], keys[i], kind);
    }
  }

  /** `list.sort` with `cmp`: Python's sort is stable, so on values it can order its result is the
      one arrangement there is. */
  method Sort(order: seq<bool>, keys: seq<Key>) returns (places: seq<nat>)
    requires forall k | 0 <= k < |keys| :: |keys[k]| == |order|
    ensures Shuffle(|keys|, places)
    ensures forall kind | Sortable(order, keys, kind) :: Arranged(order, keys, |keys|, places)
  {
    places := [];
    hide Arranged, Sortable, CompareKeys;
    ArrangedNone(order, keys);
    for n := 0 to |keys|
      invariant Shuffle(n, places)
      invariant forall kind | Sortable(order, keys, kind) :: Arranged(order, keys, n, places)
    {
      var i := |places|;
      while i > 0 && CompareKeys(order, keys[places[i - 1]], keys[n]) > 0
        invariant 0 <= i <= |places|
        invariant forall j | i <= j < |places| :: CompareKeys(order, keys[places[j]], keys[n]) > 0
      {
        i := i - 1;
      }
      InsertionShuffles(n, places, i);
      forall kind | Sortable(order, keys, kind) ensures Arranged(order, keys, n + 1, places[..i] + [n] + places[i..]) {
        Insertion(order, keys, kind, n, places, i);
      }
      places := places[..i] + [n] + places[i..];
    }
  }

  lemma ArrangedNone(order: seq<bool>, keys: seq<Key>)
    requires forall k | 0 <= k < |keys| :: |keys[k]| == |order|
    ensures Arranged(order, keys, 0, [])
  {
  }

  lemma InsertionShuffles(n: nat, places: seq<nat>, i: nat)
    requires Shuffle(n, places) && i <= n
    ensures Shuffle(n + 1, places[..i] + [n] + places[i..])
  {
  }

  lemma Insertion(order: seq<bool>, keys: seq<Key>, kind: nat, n: nat, places: seq<nat>, i: nat)
    requires Sortable(order, keys, kind) && n < |keys| && Arranged(order, keys, n, places) && i <= n
    requires i > 0 ==> CompareKeys(order, keys[places[i - 1]], keys[n]) <= 0
    requires forall j | i <= j < n :: CompareKeys(order, keys[places[j]], keys[n]) > 0
    ensures Arranged(order, keys, n + 1, places[..i] + [n] + places[i..])
  {
    var after := places[..i] + [n] + places[i..];
    forall a, b | 0 <= a < b < n + 1 ensures after[a] != after[b] && Before(order, keys, after[a], after[b]) {
      if b == i {
        if a < i - 1 { BeforeTransitive(order, keys, kind, places[a], places[i - 1], n); }
      } else if a == i {
        KeysAntisymmetric(order, keys[places[b - 1]], keys[n]);
      }
    }
  }

  /** There is only one stable sorted arrangement. */
  lemma {:induction false} ArrangedUnique(order: seq<bool>, keys: seq<Key>, n: nat, p: seq<nat>, q: seq<nat>, i: nat)
    requires n <= |keys| && forall k | 0 <= k < |keys| :: |keys[k]| == |order|
    requires Arranged(order, keys, n, p) && Arranged(order, keys, n, q) && i < n
    ensures p[i] == q[i]
    decreases i
  {
    forall j | 0 <= j < i ensures p[j] == q[j] { ArrangedUnique(order, keys, n, p, q, j); }
    if p[i] != q[i] {
      var a := PlaceOf(n, q, p[i]);
      var b := PlaceOf(n, p, q[i]);
      assert a > i && b > i;
      KeysAntisymmetric(order, keys[p[i]], keys[q[i]]);
    }
  }

  /** An arrangement has every entry in some place. */
  lemma PlaceOf(n: nat, p: seq<nat>, x: nat) returns (i: nat)
    requires |p| == n && Distinct(p) && (forall i | 0 <= i < n :: p[i] < n) && x < n
    ensures i < n && p[i] == x
  {
    ImageSize(p, n);
    assert Image(p, n) <= Below(n);
    Fewer(Image(p, n), Below(n));
    assert x in Image(p, n);
    i :| 0 <= i < n && p[i] == x;
  }

  function Image(p: seq<nat>, k: nat): (s: set<nat>)
    requires k <= |p|
    ensures forall x: nat :: x in s <==> exists j :: 0 <= j < k && p[j] == x
  {
    if k == 0 then {} else Image(p, k - 1) + {p[k - 1]}
  }

  function Below(n: nat): (s: set<nat>)
    ensures |s| == n && forall x: nat :: x in s <==> x < n
  {
    if n == 0 then {} else Below(n - 1) + {n - 1}
  }

  lemma Fewer(a: set<nat>, b: set<nat>)
    requires a <= b
    ensures |a| < |b| || a == b
  {
    var rest := b - a;
    assert b == a + rest && a !! rest;
    assert |b| == |a| + |rest|;
  }

  lemma NotYetInImage(p: seq<nat>, k: nat)
    requires k < |p| && Distinct(p)
    ensures p[k] !in Image(p, k)
  {
    hide Image;
    assert forall j | 0 <= j < k :: p[j] != p[k];
  }

  lemma {:induction false} ImageSize(p: seq<nat>, k: nat)
    requires k <= |p| && Distinct(p)
    ensures |Image(p, k)| == k
  {
    hide Distinct;
    if k > 0 {
      ImageSize(p, k - 1);
      NotYetInImage(p, k - 1);
    }
  }

  // --- The clause ----------------------------------------------------------

  /** The alias of the last item with this text. */
  function AliasOf(items: seq<Item>, text: string): Option<string> {
    if items == [] then None
    else
      var n := |items| - 1;
      if items[n].text == text then Some(items[n].alias) else AliasOf(items[..n], text)
  }

  /** The values an entry is sorted by: a projected item of the same text, or the expression's value. */
  function SortValues(c: Context, items: seq<Item>, order: seq<SortKey>, entry: Entry): Result<Key, CypherError> {
    if order == [] then Ok([])
    else
      var name := AliasOf(items, order[0].text);
      var v :- if name.Some? then (if name.value in entry.out then Ok(entry.out[name.value]) else Err(UndefinedVariable))
               else if Aggregating(items) && HasAggregate(order[0].e) then Err(NoAggregationHere)
               else Eval(c.g, c.params, order[0].e, entry.scope, None);
      var vs :- SortValues(c, items, order[1..], entry);
      Ok([v] + vs)
  }

  lemma {:induction false} SortValuesLength(c: Context, items: seq<Item>, order: seq<SortKey>, entry: Entry)
    requires SortValues(c, items, order, entry).Ok?
    ensures |SortValues(c, items, order, entry).value| == |order|
  {
    hide Eval, Aggregating, AliasOf, HasAggregate;
    if order != [] { SortValuesLength(c, items, order[1..], entry); }
  }

  function Directions(order: seq<SortKey>): (r: seq<bool>)
    ensures |r| == |order|
  {
    seq(|order|, i requires 0 <= i < |order| => order[i].desc)
  }

  /** SKIP and LIMIT. */
  function Window(rows: seq<Row>, skip: nat, limit: Option<nat>): seq<Row> {
    var rest := if skip <= |rows| then rows[skip..] else [];
    if limit.Some? && limit.value <= |rest| then rest[..limit.value] else rest
  }

  /** `_count`: a non-negative integer that needs no variables. */
  function CountOf(c: Context, e: Option<Expr>): Result<Option<nat>, CypherError> {
    match e
    case None => Ok(None)
    case Some(e1) =>
      var v :- Eval(c.g, c.params, e1, map[], None);
      if v.Num? && v.n >= 0.0 && v.n == v.n.Floor as real then Ok(Some(v.n.Floor)) else Err(WrongType)
  }

  function Outs(entries: seq<Entry>, places: seq<nat>): (r: seq<Row>)
    requires forall i | 0 <= i < |places| :: places[i] < |entries|
    ensures |r| == |places| && forall i | 0 <= i < |r| :: r[i] == entries[places[i]].out
  {
    seq(|places|, i requires 0 <= i < |places| => entries[places[i]].out)
  }

  /** The sort keys of all entries. */
  method Keys(c: Context, p: Projection, entries: seq<Entry>) returns (r: Result<seq<Key>, CypherError>)
    ensures r.Ok? <==> forall i | 0 <= i < |entries| :: SortValues(c, p.items, p.order, entries[i]).Ok?
    ensures r.Ok? ==> |r.value| == |entries|
    ensures r.Ok? ==> forall i | 0 <= i < |entries| :: SortValues(c, p.items, p.order, entries[i]) == Ok(r.value[i])
    ensures r.Ok? ==> forall i | 0 <= i < |entries| :: |r.value[i]| == |p.order|
  {
    hide SortValues;
    var keys: seq<Key> := [];
    for i := 0 to |entries|
      invariant |keys| == i
      invariant forall j | 0 <= j < i :: SortValues(c, p.items, p.order, entries[j]) == Ok(keys[j]) && |keys[j]| == |p.order|
    {
      var key := SortValues(c, p.items, p.order, entries[i]);
      if key.Err? { return Err(key.error); }
      SortValuesLength(c, p.items, p.order, entries[i]);
      keys := keys + [key.value];
    }
    return Ok(keys);
  }

  /** What ORDER BY makes of the entries: with values that can be ordered, the sorted arrangement in
      which level entries keep their order. */
  ghost predicate InOrder(c: Context, p: Projection, entries: seq<Entry>, places: seq<nat>) {
    && Shuffle(|entries|, places)
    && if p.order == [] then forall i | 0 <= i < |entries| :: places[i] == i
       else exists keys: seq<Key> :: SortedBy(c, p, entries, keys, places)
  }

  ghost predicate SortedBy(c: Context, p: Projection, entries: seq<Entry>, keys: seq<Key>, places: seq<nat>) {
    && |keys| == |entries| && (forall i | 0 <= i < |keys| :: |keys[i]| == |p.order|)
    && (forall i | 0 <= i < |keys| :: SortValues(c, p.items, p.order, entries[i]) == Ok(keys[i]))
    && forall kind | Sortable(Directions(p.order), keys, kind) :: Arranged(Directions(p.order), keys, |keys|, places)
  }

  /** Every entry has its sort keys. */
  predicate CanOrder(c: Context, p: Projection, entries: seq<Entry>) {
    p.order != [] ==> forall i | 0 <= i < |entries| :: SortValues(c, p.items, p.order, entries[i]).Ok?
  }

  method Order(c: Context, p: Projection, entries: seq<Entry>) returns (r: Result<seq<nat>, CypherError>)
    ensures r.Ok? <==> CanOrder(c, p, entries)
    ensures r.Ok? ==> InOrder(c, p, entries, r.value)
  {
    hide SortValues, Sortable, Arranged;
    if p.order == [] {
      return Ok(seq(|entries|, i => i));
    }
    var keys := Keys(c, p, entries);
    if keys.Err? { return Err(keys.error); }
    var places := Sort(Directions(p.order), keys.value);
    assert SortedBy(c, p, entries, keys.value, places);
    return Ok(places);
  }

  /** What DISTINCT, ORDER BY, SKIP, LIMIT and WHERE make of the entries. */
  ghost predicate Finished(c: Context, p: Projection, entries: seq<Entry>, places: seq<nat>, r: Result<seq<Row>, CypherError>) {
    var kept := if p.distinct then UniqueEntries(entries) else entries;
    && InOrder(c, p, kept, places) && CountOf(c, p.skip).Ok? && CountOf(c, p.limit).Ok?
    && r == Passing(c, p.filter, Window(Outs(kept, places), GetOr(CountOf(c, p.skip).value, 0), CountOf(c, p.limit).value))
  }

  /** The entries can be put in order, and SKIP and LIMIT are numbers; the WHERE clause may still fail. */
  predicate CanFinish(c: Context, p: Projection, entries: seq<Entry>) {
    CanOrder(c, p, if p.distinct then UniqueEntries(entries) else entries) && CountOf(c, p.skip).Ok? && CountOf(c, p.limit).Ok?
  }

  /** The rest of `project`, once the entries are there: its result, or the error of the WHERE clause. */
  method Finish(c: Context, p: Projection, entries: seq<Entry>) returns (r: Result<seq<Row>, CypherError>, ghost places: seq<nat>)
    ensures if CanFinish(c, p, entries) then Finished(c, p, entries, places, r) else r.Err?
  {
    hide UniqueEntries, CountOf, Passing, Window, CanOrder;
    places := [];
    var kept := if p.distinct then UniqueEntries(entries) else entries;
    var ordered := Order(c, p, kept);
    if ordered.Err? { return Err(ordered.error), places; }
    places := ordered.value;
    assert Shuffle(|kept|, places);
    var skip, limit := CountOf(c, p.skip), CountOf(c, p.limit);
    if skip.Err? { return Err(skip.error), places; }
    if limit.Err? { return Err(limit.error), places; }
    r := Keep(c, p.filter, Window(Outs(kept, ordered.value), GetOr(skip.value, 0), limit.value));
  }

  ghost predicate FromRows(c: Context, p: Projection, rows: seq<Row>, entries: seq<Entry>) {
    if Aggregating(p.items) then exists names :: OnePerGroup(c, p.items, rows, names, entries)
    else OnePerRow(c, p.items, rows, entries)
  }

  /** Every row, or group, has its values. */
  ghost predicate EntriesOk(c: Context, p: Projection, rows: seq<Row>) {
    if Aggregating(p.items) then GroupsOk(c, p.items, rows) else forall i | 0 <= i < |rows| :: Values(c, p.items, rows[i], None).Ok?
  }

  /** The entries of the rows, and what is made of them: the result, or an error. */
  ghost predicate Projected(c: Context, p: Projection, rows: seq<Row>, entries: seq<Entry>, places: seq<nat>, r: Result<seq<Row>, CypherError>) {
    FromRows(c, p, rows, entries) && if CanFinish(c, p, entries) then Finished(c, p, entries, places, r) else r.Err?
  }

  /** `project`: it succeeds exactly when all values are there, the entries can be ordered, the counts
      are numbers and the WHERE clause does not fail. */
  method Project(c: Context, p: Projection, rows: seq<Row>) returns (r: Result<seq<Row>, CypherError>)
    ensures if EntriesOk(c, p, rows)
            then exists entries, places :: Projected(c, p, rows, entries, places, r)
            else r.Err?
  {
    hide Finished, OnePerGroup, OnePerRow, Aggregating, CanFinish, GroupsOk;
    var entries;
    if Aggregating(p.items) {
      ghost var names;
      entries, names := ProjectGroups(c, p.items, rows);
    } else {
      entries := ProjectRows(c, p.items, rows);
    }
    assert entries.Ok? <==> EntriesOk(c, p, rows);
    assert entries.Ok? ==> FromRows(c, p, rows, entries.value);
    hide EntriesOk, FromRows;
    if entries.Err? { return Err(entries.error); }
    ghost var places;
    r, places := Finish(c, p, entries.value);
    assert Projected(c, p, rows, entries.value, places, r);
  }
}
