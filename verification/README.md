# Verification of cvcdocdb

A Dafny model of the graph store cvcdocdb, with proofs of the properties its design depends on.
`dafny verify dfyconfig.toml` checks all of it.

| file | what it models |
|---|---|
| `Common.dfy`, `Values.dfy` | options, results, decimal numerals; property values |
| `PercentEncoding.dfy`, `RdfTerms.dfy`, `RdfMapping.dfy`, `RdfState.dfy` | the RDF side: UTF-8 and percent-encoding, printing and parsing of terms, the mapping between graph states and triples |
| `SparqlUpdate.dfy`, `JenaGraph.dfy`, `JenaProtocol.dfy`, `JenaBlocks.dfy` | a small semantics of SPARQL Update, the guarded differential save, and every interleaving of any number of clients on one server: safety, when updates are refused and acknowledged, and the client class as the protocol's client |
| `StoreIndexes.dfy`, `Propagation.dfy`, `PropagationFlags.dfy`, `StoreArguments.dfy`, `NetworkXGraph.dfy`, `WeakOrder.dfy`, `GroupCreation.dfy` | the in-memory store as a class over its six structures: indexes, three delete policies, propagating deletes, breadth-first search, insertions, `init_propagation`, `create_group` |
| `GuardedWrites.dfy` | guarded blocks of instances that share one file |
| `CypherValues.dfy`, `CypherEval.dfy`, `CypherMatch.dfy`, `CypherProject.dfy` | the read-only Cypher engine: three-valued evaluation, the backtracking MATCH against its declarative meaning, grouping and ORDER BY |
| `Filters.dfy`, `FilterTranslation.dfy`, `Streaming.dfy` | dict filters in memory, their translation to Cypher, and sharded, paged streaming with filter pushdown |
| `CompositeKeys.dfy`, `Migration.dfy` | composite keys of weak nodes; copying a graph from one store to another |
| `RdfReading.dfy`, `StoreReading.dfy`, `CypherReading.dfy`, `FilterReading.dfy` | what the functions that the code and its specification share come to, in independent words: triples and their text, what a delete takes and an argument finds, expressions and whole queries, filters |

Objects that the repository updates in place are classes here, and their methods are proved against
functions and predicates over the values they hold; the lemmas say what those functions and
predicates mean. Protocols are transition systems whose runs have any length.

## Where the code does not meet its own description

Each of these is a lemma with an input that shows it, beside the condition under which the property holds.

- `_order_cmp` is described as a total order. It is transitive on the values whose dates and times are of
  given kinds if and only if there is at most one kind; a date and a datetime make it intransitive
  (`CypherValues.OrderTransitiveIff`, `CypherValues.KindsBreakTransitivity`).
- MATCH with one name for a relationship and the node at its end, `()-[x]->(x)`, yields rows although
  nothing satisfies the pattern; the search is exact there if and only if it yields nothing
  (`CypherMatch.SharedNameIsFound`, `CypherMatch.SharedNameExactIff`).
- Grouping, DISTINCT and `count(DISTINCT ...)` put `1` and `1.0` together, as Neo4j does, but also `true` and `1`,
  which equality tells apart: they tell all values apart if and only if there are not both booleans and numbers among
  them (`CypherReading.TellsApartIff`).
- The Cypher translation of `$not` accepts the same nodes as `_match` if and only if absent fields do not leave
  the negated filter undecided; for one field, if and only if the field is there or its absence settles the
  test (`FilterTranslation.NotIsExactIff`, `FilterTranslation.NotOfOneField`).
- An empty `$and` is written as `()`, which is no expression; the translation is one if and only if no
  `$and` is empty (`FilterTranslation.EmptyLists`, `FilterTranslation.DictFilterToCypher`).
- Streaming from a Cypher server loses nodes that the filter accepts. For each operator and each short form,
  a condition on a property loses none if and only if its operands have no nulls where they matter
  (`Streaming.KeepsIff`); for the id, the main label and the key, which are shown with each row but are
  usually no properties, if and only if what is pushed down asks nothing (`Streaming.ShownFieldIsKeptIff`). An
  empty list of labels restricts nothing there, and in memory accepts nothing; the two iterators are modelled
  with their own tests.
- `create_group` with an explicit key `{"id": n}` that happens to be the id a member below it gets: the member
  is inserted once more with each child (`GroupCreation.GuessedKeyCollides`, `GroupCreation.FoundAgainIff`,
  `GroupCreation.CollidesIff`). With two members of one group key, a child of the first is looked for below the
  second and the group is refused (`GroupCreation.ShadowedParent`). Otherwise the group is created if and only
  if its members fit and are paired with their own parents (`GroupCreation.CreateGroup`).
- `migrate` raises for a property called `self` or `attributes`, or of the empty name, and for a relation's
  attribute called `self`, `src`, `dst`, `rel_type`, `type` or `attributes`; one called `_src`, `_dst` or `_type`
  overwrites the relation's own fields; and types are put in upper case, so some become one. The copy into an
  empty store is isomorphic if and only if there is none of this (`Migration.Migrate`,
  `Migration.ReservedProperty`, `Migration.ReservedAttribute`, `Migration.TypesCollapse`).

## Model

| member | source | states |
|---|---|---|
| PercentEncoding.Utf8RoundTrip | cvcdocdb/jena_rdf.py:62-64 | decoding the UTF-8 bytes of any text gives the text back |
| PercentEncoding.BytesRoundTrip | cvcdocdb/jena_rdf.py:62-64 | percent-encoding of any bytes is undone by decoding |
| PercentEncoding.QuoteRoundTrip | cvcdocdb/jena_rdf.py:62-64 | a quoted name unquotes to itself, for every name |
| RdfReading.Utf8Table | cvcdocdb/jena_rdf.py:62-64 | the bytes of each character: how many, which lead, and what they carry, after RFC 3629 |
| RdfReading.QuoteParts | cvcdocdb/jena_rdf.py:62-64 | a name is encoded character by character |
| RdfReading.QuoteChar | cvcdocdb/jena_rdf.py:62-64 | letters, digits and four signs stand for themselves, every other byte is `%` and two upper-case hexadecimal digits |
| RdfTerms.EscapeRoundTrip | cvcdocdb/jena_rdf.py:54-59 | escaping a literal's text is undone, quotes, backslashes and newlines included |
| RdfTerms.ParsePrinted | cvcdocdb/jena_rdf.py:67-116 | parsing a canonical term's text, at any nesting of triple terms, gives the term and leaves exactly the text that followed |
| RdfTerms.ReadBackIsCanonical | cvcdocdb/jena_rdf.py:67-116 | only a canonical term is ever read back from its own text |
| RdfTerms.TermRoundTrip | cvcdocdb/jena_rdf.py:67-116 | printing and parsing undo each other if and only if the term is canonical |
| RdfTerms.TextsAreUnique | cvcdocdb/jena_rdf.py:67-88 | canonical terms with the same text are the same term |
| RdfReading.EscapedText | cvcdocdb/jena_rdf.py:51-55 | a literal's text is escaped character by character: five characters, and no other |
| RdfReading.TrailingTextIsRefused | cvcdocdb/jena_rdf.py:90-95 | only white space may follow a term |
| RdfReading.BlankNodes | cvcdocdb/jena_rdf.py:98-116 | blank nodes are read but cannot be written |
| RdfMapping.ValueRoundTrip | cvcdocdb/jena_rdf.py:186-224 | a value survives encoding and decoding if and only if it is encodable |
| RdfReading.ValueTexts | cvcdocdb/jena_rdf.py:186-200 | each kind of value is written as a plain literal or with its standard datatype |
| RdfReading.ForeignValues | cvcdocdb/jena_rdf.py:202-222 | what literals of other programs are read as, by datatype |
| RdfMapping.IriInjective | cvcdocdb/jena_rdf.py:165-182 | an IRI determines its kind and its local part |
| RdfMapping.EdgeReadBack | cvcdocdb/jena_rdf.py:177-184 | the local part of an edge IRI splits back into source, target and type |
| RdfMapping.SubjectsApart | cvcdocdb/jena_rdf.py:165-184 | node, edge and meta subjects are disjoint, and ids read back |
| RdfMapping.NotRdfType | cvcdocdb/jena_rdf.py:149-182 | no property, label or relation IRI is `rdf:type`, whatever the namespace |
| RdfMapping.StateToTriples | cvcdocdb/jena_rdf.py:226-254 | the loops produce exactly the triples of the state |
| RdfReading.TriplesAre | cvcdocdb/jena_rdf.py:226-254 | a state is written as exactly these triples, IRIs spelled out: classes, bookkeeping and properties of nodes, relations with their reifiers and properties, counter and version |
| RdfMapping.FactReadBack | cvcdocdb/jena_rdf.py:256-316 | reading the triple of any fact of a state gives the fact |
| RdfState.StateFromTriples | cvcdocdb/jena_rdf.py:256-316 | the loop computes the decoding function, errors included |
| RdfReading.DecodeReads | cvcdocdb/jena_rdf.py:256-316 | any rows: refused if the value of one cannot be decoded; otherwise the state has the nodes and relations some row is about, the last word on everything counts, and what no row says is the default |
| RdfReading.OthersSayNothing | cvcdocdb/jena_rdf.py:267-306 | rows about other subjects, and a node's classes, say nothing |
| RdfReading.LabelsRead | cvcdocdb/jena_rdf.py:282-313 | labels are read as they are, null as none |
| RdfState.ReadAllTakes | cvcdocdb/jena_rdf.py:256-316 | rows that say only what holds in a state are all taken, in any order |
| RdfState.DecodeHeld | cvcdocdb/jena_rdf.py:256-316 | any store that holds a faithful state decodes to it |
| RdfState.StateRoundTrip | cvcdocdb/jena_rdf.py:226-316 | decoding a faithful state's triples, in any order, gives the state |
| RdfState.TriplesDetermineState | cvcdocdb/jena_rdf.py:226-254 | two faithful states with the same triples are equal |
| RdfState.StoredTriplesAreCanonical | cvcdocdb/jena_rdf.py:226-254 | every stored triple consists of canonical terms, so comparing texts is comparing triples |
| RdfState.StateSubjectsOwned | cvcdocdb/jena_rdf.py:226-254 | a state's triples have the state's own subjects |
| SparqlUpdate.InsertIfPresent | cvcdocdb/jena_graph.py:367-369 | the token is inserted exactly when the expected stamp is there |
| SparqlUpdate.InsertIfAbsent | cvcdocdb/jena_graph.py:365-369 | the token is inserted exactly when there is no stamp |
| SparqlUpdate.InsertGuarded | cvcdocdb/jena_graph.py:374-376 | triples are inserted exactly when the token is there |
| SparqlUpdate.DeleteGuarded | cvcdocdb/jena_graph.py:371-373 | all triples of a subject go exactly when the token is there |
| SparqlUpdate.ReplaceObject | cvcdocdb/jena_graph.py:377-381 | the stamp is replaced and the token removed, also when there was no stamp |
| JenaGraph.GroupBySubject | cvcdocdb/jena_rdf.py:319-325 | the loop groups every triple under its subject, and nothing else |
| JenaGraph.GroupInjective | cvcdocdb/jena_rdf.py:319-325 | the grouping determines the triples |
| JenaGraph.SubjectOperations | cvcdocdb/jena_graph.py:370-376 | the operations for one subject rewrite that subject under the guard, and do nothing without it |
| JenaGraph.BodyOperations | cvcdocdb/jena_graph.py:370-376 | the operations for all changed subjects rewrite exactly those subjects, and do nothing without the guard |
| JenaGraph.BuildUpdate | cvcdocdb/jena_graph.py:355-382 | on a server whose stamp matches, the update sequence has exactly the effect of a save; otherwise it is the identity |
| JenaGraph.SaveKeepsHolding | cvcdocdb/jena_graph.py:355-390 | after a save the store holds the client's state under the new stamp, with no token left |
| JenaGraph.SaveFrame | cvcdocdb/jena_graph.py:355-382 | triples of other subjects are untouched |
| JenaGraph.CurrentDeterminesState | cvcdocdb/jena_graph.py:351-353 | what is compared to decide whether to save determines the state |
| JenaGraph.VisibleHolds | cvcdocdb/jena_graph.py:303-332 | the rows the load query selects still hold the whole state |
| JenaGraph.JenaClient.NeedsRows | cvcdocdb/jena_graph.py:319-325 | the second request is skipped exactly when a loaded copy has the server's stamp |
| JenaGraph.JenaClient.InstallRows | cvcdocdb/jena_graph.py:325-349 | the copy, its synchronised snapshot and its stamp after a load, or the decoding error with nothing changed |
| JenaGraph.JenaClient.Edit | cvcdocdb/jena_graph.py:334-349 | a block changes the copy only, not what is believed synchronised |
| JenaGraph.JenaClient.PrepareSave | cvcdocdb/jena_graph.py:355-382 | nothing is sent if nothing changed; otherwise the update has the guarded effect of a save |
| JenaGraph.JenaClient.FinishSave | cvcdocdb/jena_graph.py:383-390 | a conflict exactly when the stamp read back is not the client's own |
| JenaGraph.JenaClient.Discard | cvcdocdb/jena_graph.py:392-395 | the copy is marked to be reloaded |
| JenaProtocol.StepKeepsInv | cvcdocdb/jena_graph.py:319-395 | every step of every client keeps the protocol's invariant |
| JenaProtocol.RunKeepsInv | cvcdocdb/jena_graph.py:319-395 | the invariant holds in every reachable world |
| JenaProtocol.HistoryGrows | cvcdocdb/jena_graph.py:355-390 | installed stamps are never taken back |
| JenaProtocol.NoLostUpdate | cvcdocdb/jena_graph.py:355-390 | each installed stamp is one block applied to exactly the state of the stamp before it, and an acknowledged save installed its own |
| JenaProtocol.CommitIsTheBlock | cvcdocdb/networkx_graph.py:1589-1611 | a commit is the block of the client that sent it, begun from the server's current state |
| JenaProtocol.TornReadsAreHarmless | cvcdocdb/jena_graph.py:319-332 | although stamp and rows are read apart, a client whose stamp is the server's has the server's current state |
| JenaBlocks.BlockBeginsFresh | cvcdocdb/jena_graph.py:319-332 | a block begins with the server's state, whether the copy was reloaded for it or kept |
| JenaBlocks.BlockBegan | cvcdocdb/jena_graph.py:319-332 | the stamp a block relies on was the server's when it was read, and since then only others have committed |
| JenaBlocks.RefusedIff | cvcdocdb/jena_graph.py:363-369 | an update is refused if and only if others committed between the block's reading of the stamp and the update |
| JenaBlocks.SavesIfChanged | cvcdocdb/jena_graph.py:355-359 | a block sends an update exactly when it changed something |
| JenaBlocks.AcknowledgedIff | cvcdocdb/jena_graph.py:383-390 | a save is acknowledged if and only if its update was applied and nobody committed before the stamp was read back |
| JenaBlocks.LoadGoesThrough | cvcdocdb/jena_graph.py:319-332 | a load that nobody disturbs ends with the server's state in the copy |
| JenaBlocks.SoloSave | cvcdocdb/jena_graph.py:319-390 | a client alone gets through: its block is the next commit, from the server's state to its own, and is acknowledged |
| JenaBlocks.ReadTheStamp | cvcdocdb/jena_graph.py:319-325 | what the client class decides on the stamp is the protocol's step: a block on the copy it has, or a second request |
| JenaBlocks.TakeTheRows | cvcdocdb/jena_graph.py:325-332 | what it makes of the rows is the protocol's step |
| JenaBlocks.SendTheUpdate | cvcdocdb/jena_graph.py:355-382 | what it sends, performed by the server, is the protocol's step, or there is nothing to send |
| JenaBlocks.ReadItBack | cvcdocdb/jena_graph.py:383-390 | what it concludes from the stamp read back is the protocol's step |
| JenaBlocks.AbortBlock | cvcdocdb/jena_graph.py:392-395 | a block that raises discards the copy, as in the protocol |
| StoreIndexes.FkAddExact | cvcdocdb/networkx_graph.py:1372-1375 | recording a relation at both ends keeps the index the exact incidence relation |
| StoreIndexes.FkRemoveExact | cvcdocdb/networkx_graph.py:1377-1386 | so does removing one, and no empty set is left |
| StoreIndexes.KeysAreUnique | cvcdocdb/networkx_graph.py:1752-1769 | no two stored nodes share a primary key |
| StoreIndexes.IndexIsScan | cvcdocdb/networkx_graph.py:447-475 | an index bucket is what a scan of the nodes would give |
| StoreIndexes.ConsistentUnique | cvcdocdb/networkx_graph.py:64-75 | in a consistent store, nodes, relations and the counter determine all other structures |
| StoreIndexes.DeletesAgree | cvcdocdb/networkx_graph.py:272-284 | cascade, set-null and restrict leave the same state, in all six structures, when they delete |
| Propagation.ClosureIsLeast | cvcdocdb/networkx_graph.py:255-270 | the propagation closure is the least set that contains the root and is closed |
| Propagation.SiblingsDisjoint | cvcdocdb/networkx_graph.py:255-270 | in a hierarchy the closures of two children are disjoint |
| Propagation.ClosureOfChildren | cvcdocdb/networkx_graph.py:255-270 | the closure of a hierarchy is its root and its children's closures |
| Propagation.ClosureUntouched | cvcdocdb/networkx_graph.py:255-270 | deleting nodes outside a closure leaves the closure, and that it is a hierarchy |
| Propagation.SearchStep | cvcdocdb/networkx_graph.py:1158-1183 | a step of the breadth-first search keeps its invariant and ends on any graph |
| Propagation.FlaggedClosure | cvcdocdb/networkx_graph.py:1166-1168 | with boolean flags the search and the delete follow the same relations |
| Propagation.SubdocumentsAreDeleted | cvcdocdb/networkx_graph.py:255-298 | a propagating delete takes exactly the root and what `get_subdocuments` lists |
| StoreReading.BelowIsClosure | cvcdocdb/networkx_graph.py:1158-1183 | the closure along flags is what paths of flagged relations lead to |
| StoreReading.TakenIsClosure | cvcdocdb/networkx_graph.py:255-270 | with boolean flags a propagating delete takes the node, what is below it, and if the argument itself propagates every neighbour it has a relation to, whatever its flag, with what is below that |
| StoreReading.DeleteTakes | cvcdocdb/networkx_graph.py:232-298 | the nodes and relations left after a propagating delete, in those words |
| StoreReading.PlainDeleteTakes | cvcdocdb/networkx_graph.py:232-298 | without propagation the node alone goes, with its relations |
| StoreReading.DeleteIsRefused | cvcdocdb/networkx_graph.py:272-294 | a delete is refused exactly when it may not cut relations and the node has one to a node that stays |
| StoreReading.ListedIsBelow | cvcdocdb/networkx_graph.py:1133-1183 | `get_subdocuments` lists what paths of flagged relations lead to, but the root, once each |
| NetworkXGraph.Graph.constructor | cvcdocdb/networkx_graph.py:62-75 | an empty store is consistent |
| NetworkXGraph.Graph.Restore | cvcdocdb/networkx_graph.py:1507-1524 | all structures are put back |
| NetworkXGraph.Graph.AddToFkIndex | cvcdocdb/networkx_graph.py:1372-1375 | the index after a relation is recorded |
| NetworkXGraph.Graph.RemoveFromFkIndex | cvcdocdb/networkx_graph.py:1377-1386 | the index after a relation is removed |
| NetworkXGraph.Graph.IndexNode | cvcdocdb/networkx_graph.py:1752-1769 | refuses exactly a key another node has; otherwise both indexes stay exact with the node in them |
| NetworkXGraph.Graph.DeindexNode | cvcdocdb/networkx_graph.py:1771-1789 | both indexes stay exact without the node |
| NetworkXGraph.Graph.UnlinkRelations | cvcdocdb/networkx_graph.py:1408-1430 | walking the index removes exactly the node's relations, from every structure |
| NetworkXGraph.Graph.CascadeDelete | cvcdocdb/networkx_graph.py:1401-1433 | the node and exactly its incident relations are gone, everything else is as it was |
| NetworkXGraph.Graph.CleanFkIndex | cvcdocdb/networkx_graph.py:1388-1399 | the index without the node, for nodes without self-loops |
| NetworkXGraph.Graph.SetNullDelete | cvcdocdb/networkx_graph.py:1435-1453 | the scan reaches the state the cascade reaches |
| NetworkXGraph.Graph.RestrictDelete | cvcdocdb/networkx_graph.py:285-298 | refuses exactly when the node has relations, changing nothing |
| NetworkXGraph.Graph.DeleteBelow | cvcdocdb/networkx_graph.py:255-270 | the recursion removes exactly the closure below the node, and ends |
| NetworkXGraph.Graph.DeleteTree | cvcdocdb/networkx_graph.py:255-284 | deleting a child removes exactly its closure |
| NetworkXGraph.Graph.DeleteNode | cvcdocdb/networkx_graph.py:232-298 | the whole effect for every policy, or a refusal that leaves the store as it was; an argument that names no stored node deletes nothing |
| NetworkXGraph.Graph.GetSubdocuments | cvcdocdb/networkx_graph.py:1133-1185 | lists every node of the closure but the root exactly once, on any graph, cycles included |
| NetworkXGraph.Graph.FindByKey | cvcdocdb/networkx_graph.py:323-333 | finds a node of that name if there is one, and the node with exactly that key if there is one |
| NetworkXGraph.Graph.CheckNode | cvcdocdb/networkx_graph.py:300-333 | finds a node the argument stands for, if there is one |
| NetworkXGraph.Graph.Resolve | cvcdocdb/networkx_graph.py:1343-1366 | the same for the end of a relation; an empty key finds nothing |
| StoreReading.NamedIsRecognised | cvcdocdb/networkx_graph.py:1809-1825 | a node goes by a label and key exactly if its own key has the same fields with the same texts under the same label, or its label is the same and its attributes have those texts |
| StoreReading.DenotesIsRecognised | cvcdocdb/networkx_graph.py:300-333 | an argument without an id stands for exactly the nodes that are recognised so |
| StoreReading.DifferentTextsApart | cvcdocdb/networkx_graph.py:1816-1825 | a node made for one argument is not taken for another with the same label and a field of different text |
| StoreReading.TextsOf | cvcdocdb/networkx_graph.py:1809-1825 | texts of values: whole numbers have different ones, and a number has the text of its digits |
| NetworkXGraph.Graph.FindNodes | cvcdocdb/networkx_graph.py:452-475 | intersecting or joining index buckets gives the scan's answer |
| StoreReading.FoundNodes | cvcdocdb/networkx_graph.py:452-475 | the nodes that have all the values, or one of them; `pk` is not looked for, and without values all nodes are found |
| StoreReading.SameKeyIs | cvcdocdb/networkx_graph.py:1798-1807 | values are looked for as keys of a Python dict, for which `True` is 1 |
| NetworkXGraph.Graph.EnsureNodeInserted | cvcdocdb/networkx_graph.py:1248-1341 | merge, replace, refuse or create: the whole new state, or the reason for refusing |
| StoreReading.UnrecognisedIsAdded | cvcdocdb/networkx_graph.py:1314-1341 | if no stored node is recognised, one is added and nothing else changes |
| StoreReading.RecognisedIsFound | cvcdocdb/networkx_graph.py:1290-1305 | if one is, and nothing is replaced, a recognised node is merged into, its other attributes kept, and no other node changes |
| StoreReading.StoredHas | cvcdocdb/networkx_graph.py:1328-1336 | the attributes of a new node: properties over key fields over its key, label and labels |
| NetworkXGraph.Graph.InsertNode | cvcdocdb/networkx_graph.py:98-158 | a weak node with its ancestors, also when it replaces a stored one; a refused insertion leaves the store as it was |
| StoreReading.WeakHasParentKey | cvcdocdb/networkx_graph.py:1232-1246 | an inserted weak node's key is a single id, or has its parent's key values |
| StoreReading.WeakHangs | cvcdocdb/networkx_graph.py:141-147 | and it hangs from its parent by a relation that propagates |
| StoreReading.LeftToTheStore | cvcdocdb/networkx_graph.py:1266-1326 | a weak node that comes with just its parent's key gets a node of its own, with an id for a key |
| StoreArguments.InsertedAncestry | cvcdocdb/networkx_graph.py:112-148 | an insertion touches the nodes of one chain of ancestors and nothing else, but for what a replacement takes along, which is none of them, and leaves each hanging from the next |
| StoreArguments.ReplaceableWeakNode | cvcdocdb/networkx_graph.py:1283-1292 | replacing a weak node is safe if what it replaces is the root of a hierarchy and its ancestors, which go by other labels, are not in it |
| NetworkXGraph.Graph.InsertRelation | cvcdocdb/networkx_graph.py:160-230 | create, merge, replace or refuse: the whole new state, and when it refuses |
| NetworkXGraph.Graph.SetNodeProperties | cvcdocdb/networkx_graph.py:970-990 | properties written, indexes exact; undone when the new key is taken |
| NetworkXGraph.Graph.MarkChildren | cvcdocdb/networkx_graph.py:1019-1031 | the children of pending nodes become weak nodes, keeping a parent relation they had |
| NetworkXGraph.Graph.InitPropagation | cvcdocdb/networkx_graph.py:1001-1048 | every node and relation after the four steps |
| PropagationFlags.InitPropagationIdempotent | cvcdocdb/networkx_graph.py:1001-1048 | initialising twice changes nothing more |
| StoreReading.ChildBecomesWeak | cvcdocdb/networkx_graph.py:1022-1030 | a child of a pending node ends up weak and propagating, with the parent relation it had or one by which it hangs |
| StoreReading.RelationsPropagate | cvcdocdb/networkx_graph.py:1036-1041 | relations without a flag that reach it propagate afterwards |
| StoreReading.InitialisedOtherwise | cvcdocdb/networkx_graph.py:1019-1041 | every node is processed, other attributes stay, and a node that is no such child is not marked |
| StoreReading.RelationsInitialised | cvcdocdb/networkx_graph.py:1036-1041 | a relation keeps its attributes, but for a missing flag if it leads to a weak node |
| WeakOrder.CreationOrder | cvcdocdb/graph_store.py:39-66 | each weak node as often as given, after its parent; refuses exactly when some weak node has no chain of parents to the strong node; the order is that of the rounds |
| WeakOrder.ChainStaysCreated | cvcdocdb/graph_store.py:55-61 | when nothing is ready, no chain leads to a pending node |
| GroupCreation.HomeInserted | cvcdocdb/networkx_graph.py:112-133 | inserting a parent again with its children changes nothing when it is found by its id |
| GroupCreation.FoundAgainIff | cvcdocdb/networkx_graph.py:1269-1276 | it is found if and only if its key is not its own parent's; otherwise it gets another node |
| GroupCreation.CollidesIff | cvcdocdb/networkx_graph.py:1316-1328 | a member comes out with its parent's key if and only if its own was left to the store and its parent's is the id it gets |
| GroupCreation.InsertObject | cvcdocdb/networkx_graph.py:98-148 | inserting an object is inserting it with its ancestors; a new one below a parent that is in place gets a node of its own if and only if it fits |
| GroupCreation.PlanSeats | cvcdocdb/networkx_graph.py:943-947 | as far as members fit, each has a node of its own under the next id, below its own parent's, and nothing else is added |
| GroupCreation.InsertAll | cvcdocdb/networkx_graph.py:943-947 | steps 1 and 2 follow that plan, and succeed if and only if all members fit |
| GroupCreation.LinkedIff | cvcdocdb/networkx_graph.py:956-962 | a member hangs from the node it is paired with if and only if that is its own parent's |
| GroupCreation.MarkMembers | cvcdocdb/networkx_graph.py:956-962 | step 4 marks every member, or fails exactly when one does not hang from the node it is paired with |
| GroupCreation.CreateGroup | cvcdocdb/networkx_graph.py:908-968 | the group is created if and only if its members fit and are paired with their own parents: new nodes for them and no others, marked and in place, their relations and the given ones between the nodes they name and no others, nothing older changed; or nothing at all. Otherwise a given relation is refused, for a missing end or as a duplicate |
| StoreReading.MembersAreMarked | cvcdocdb/networkx_graph.py:953-961 | each member is weak, propagates, names the relation it hangs by and hangs by it from its own parent's node; the strong node is processed |
| StoreReading.GroupKeys | cvcdocdb/graph_store.py:34-36 | two members go by one key exactly if label and key are the same |
| GroupCreation.InsertRelations | cvcdocdb/networkx_graph.py:948-951 | step 3 adds one relation for each given, between the nodes its ends name, and no others; or an end is not there, or there is such a relation already |
| GroupCreation.KeysApartIsSmooth | cvcdocdb/graph_store.py:34-66 | members with different keys are paired with their own parents, and without guessed ids all go in smoothly |
| GroupCreation.GuessedKeyCollides | cvcdocdb/networkx_graph.py:1269-1328 | the root key `{"id": 2}` collides on an empty store, `{"id": 1}` does not |
| GroupCreation.ShadowedParent | cvcdocdb/graph_store.py:50-66 | a child of the first of two members with one key is paired with the second |
| GuardedWrites.StepKeepsInv | cvcdocdb/networkx_graph.py:1556-1611 | every step of every instance keeps the invariant |
| GuardedWrites.Serialisable | cvcdocdb/networkx_graph.py:1556-1611 | the file is the composition of the saved blocks' changes in the order in which they held the lock, each applied to what those before it left |
| GuardedWrites.FailureIsAtomic | cvcdocdb/networkx_graph.py:1601-1637 | a block that raises leaves file and memory at the state before it |
| GuardedWrites.OnlySavesChangeTheFile | cvcdocdb/networkx_graph.py:1601-1611 | the file changes only when an outermost saving block ends, and becomes its result |
| GuardedWrites.NestingIsTransparent | cvcdocdb/networkx_graph.py:1589-1611 | nested blocks neither load nor save, and no other instance is inside meanwhile |
| GuardedWrites.BlocksBeginFresh | cvcdocdb/networkx_graph.py:1598-1600 | a block begins with the newest saved state |
| GuardedWrites.OpensWithTheFile | cvcdocdb/networkx_graph.py:63-87 | an instance that is opened has in memory what the file stands for |
| GuardedWrites.EveryBlockSaves | cvcdocdb/networkx_graph.py:1608-1611 | the end of every outermost saving block puts its memory in the file |
| GuardedWrites.FileIsTheBlocks | cvcdocdb/networkx_graph.py:1556-1611 | the file is the fold of the changes of all outermost saving blocks that ended, in that order, collected from the steps alone |
| GuardedWrites.BlocksCanRun | cvcdocdb/networkx_graph.py:1589-1611 | exactly when a block can begin, change and end |
| GuardedWrites.ThreadWriteLock.Acquire | cvcdocdb/jena_graph.py:185-189 | fails exactly when another thread holds the lock; the outermost call is the one that found it not locked |
| GuardedWrites.ThreadWriteLock.Release | cvcdocdb/jena_graph.py:191-195 | the owner stays the owner until its last release |
| CypherValues.EqualsIsIdentity | cvcdocdb/nx_cypher.py:613-631 | equality is true of identical values without nulls and of nothing else |
| CypherValues.EqualsSymmetric | cvcdocdb/nx_cypher.py:613-631 | three-valued equality is symmetric |
| CypherValues.OrderAntisymmetric | cvcdocdb/nx_cypher.py:660-684 | the order is sign-antisymmetric on arbitrarily nested values |
| CypherValues.OrderTransitive | cvcdocdb/nx_cypher.py:660-684 | and transitive, strictly where either step is strict, for dates of one kind |
| CypherValues.NullIsGreatest | cvcdocdb/nx_cypher.py:660-664 | null comes after everything else |
| CypherValues.KindsBreakTransitivity | cvcdocdb/nx_cypher.py:680-684 | dates of any two kinds make it intransitive |
| CypherValues.OrderTransitiveIff | cvcdocdb/nx_cypher.py:660-684 | it is transitive on values with dates of given kinds if and only if there is at most one |
| CypherValues.EqualsIsLevel | cvcdocdb/nx_cypher.py:613-684 | what is surely equal is level in the order |
| CypherReading.TextOrder | cvcdocdb/nx_cypher.py:644-651 | strings are ordered by the first character that differs, a beginning first |
| CypherReading.ComparedStands | cvcdocdb/nx_cypher.py:634-651 | a comparison is true exactly of two numbers, texts or booleans in that order, and unknown of other kinds |
| CypherReading.NumbersCompared | cvcdocdb/nx_cypher.py:634-651 | each operator on two numbers, in Cypher and in filters |
| CypherReading.EqualsMeans | cvcdocdb/nx_cypher.py:613-631 | equality is false exactly of values that surely differ, at any depth of lists |
| CypherReading.OrderMeans | cvcdocdb/nx_cypher.py:660-684 | ORDER BY's order within each kind, lists included |
| CypherReading.KindsOrdered | cvcdocdb/nx_cypher.py:657-669 | and across kinds, null last |
| CypherEval.EvalMore | cvcdocdb/nx_cypher.py:904-966 | an expression with a value keeps it when more variables are bound |
| CypherReading.EvalIsReady | cvcdocdb/nx_cypher.py:904-966 | an expression has a value, and is no error, exactly when its operands have values it can take; AND and OR do not look at a right side that cannot matter |
| CypherReading.ConditionMeans | cvcdocdb/nx_cypher.py:904-1019 | a condition evaluates to true exactly when it holds and to false exactly when it fails, by strong Kleene logic over tests of its operands' values |
| CypherReading.LogicTables | cvcdocdb/nx_cypher.py:924-938 | AND is the weaker side, OR the stronger, NOT turns the order around, XOR is one side without the other |
| CypherReading.MemberIs | cvcdocdb/nx_cypher.py:997-1009 | IN is true if an item is the same, false if all items surely differ, and otherwise unknown |
| CypherReading.TextYields | cvcdocdb/nx_cypher.py:1010-1019 | STARTS WITH, ENDS WITH and CONTAINS of two texts |
| CypherReading.LabelsAre | cvcdocdb/nx_cypher.py:879-881 | the labels a node goes by: its list, or its main label when that is missing or empty |
| CypherReading.PropertyYields | cvcdocdb/nx_cypher.py:968-977 | the property of a node, a relation or a map, or null |
| CypherReading.IndexYields | cvcdocdb/nx_cypher.py:980-987 | list items by position, from the end when negative; map entries by name; null outside |
| CypherReading.ItemsYield | cvcdocdb/nx_cypher.py:918-919 | a list expression is the list of its items' values |
| CypherReading.LastEntryYields | cvcdocdb/nx_cypher.py:920-921 | a map expression has the value of the last entry of each name |
| CypherReading.AggregationYields | cvcdocdb/nx_cypher.py:1058-1092 | count, collect, min and max over a group: of the argument's values, without nulls and in order, with DISTINCT of each once |
| CypherReading.AggregateIn | cvcdocdb/nx_cypher.py:844-866 | an expression aggregates if it is an aggregation or a part of it is |
| CypherMatch.CandidatesAre | cvcdocdb/nx_cypher.py:1165-1173 | the relations tried are exactly those that join the node in the pattern's direction, each once, self-loops included |
| CypherMatch.AcceptsMeans | cvcdocdb/nx_cypher.py:1174-1190 | the loop's tests hold exactly when the hop holds of the row they lead to |
| CypherMatch.ExpandSound | cvcdocdb/nx_cypher.py:1158-1191 | every row a chain yields satisfies the chain, with relations used once |
| CypherMatch.ExpandComplete | cvcdocdb/nx_cypher.py:1158-1191 | every row that satisfies the chain is yielded |
| CypherMatch.ExpandApart | cvcdocdb/nx_cypher.py:1158-1191 | no row is yielded twice |
| CypherMatch.MatchExact | cvcdocdb/nx_cypher.py:1127-1191 | the search for several patterns yields exactly the declarative matches, each once |
| CypherMatch.MatchRowExact | cvcdocdb/nx_cypher.py:1105-1117 | a clause makes of a row exactly its matches that pass WHERE; OPTIONAL MATCH keeps an unmatched row once, with nulls |
| CypherReading.NodesWhere | cvcdocdb/nx_cypher.py:1105-1156 | `MATCH (n:L {k: v}) WHERE ...` yields exactly the stored nodes with the labels and values of which the condition holds, each once, and no error |
| CypherReading.NodesAbove | cvcdocdb/nx_cypher.py:1105-1156 | `MATCH (n) WHERE n.k > x` yields exactly the stored nodes whose attribute `k` is a number above `x` |
| CypherReading.NodesInOrder | cvcdocdb/nx_cypher.py:1105-1150 | and in the order in which they are stored |
| CypherReading.HopsAre | cvcdocdb/nx_cypher.py:1158-1191 | `MATCH (a)-[r:T]->(b)`, in either direction or both, yields exactly the stored relations of the types with their ends, a self-loop once |
| CypherReading.NoMatchIsNull | cvcdocdb/nx_cypher.py:1115-1116 | a row without a match keeps what it has, and gets null for the new variables |
| CypherReading.NoNodeToBeginAt | cvcdocdb/nx_cypher.py:1138-1147 | a pattern that begins at a bound variable that is no node is an error, and at null it has no match |
| CypherReading.PropsRefused | cvcdocdb/nx_cypher.py:1152-1156 | the first property of a pattern that has no value is an error, unless one before it does not fit |
| CypherReading.FilterIsRefused | cvcdocdb/nx_cypher.py:1111 | a WHERE condition that has no truth value is an error |
| CypherMatch.RowsStayLive | cvcdocdb/nx_cypher.py:1105-1117 | rows refer to stored nodes only, from clause to clause |
| CypherMatch.Match | cvcdocdb/nx_cypher.py:1105-1117 | the loop computes the rows of all input rows in order, and stops at the first error |
| CypherMatch.SharedNameNeverHolds | cvcdocdb/nx_cypher.py:1158-1191 | no row satisfies a hop whose relation and node share a name |
| CypherMatch.SharedNameIsFound | cvcdocdb/nx_cypher.py:1190-1191 | the search yields one all the same |
| CypherMatch.SharedNameExactIff | cvcdocdb/nx_cypher.py:1127-1191 | with a shared name the search is exact if and only if it yields nothing |
| CypherProject.Group | cvcdocdb/nx_cypher.py:1203-1208 | every row in the group of its key, in order, keys in order of first occurrence |
| CypherProject.GroupSizesAddUp | cvcdocdb/nx_cypher.py:1203-1208 | the sizes of the groups add up to the number of rows |
| CypherReading.GroupedTogether | cvcdocdb/nx_cypher.py:1207-1209 | rows are in one group if and only if the values of the grouping items are the same, but that `true` is 1 |
| CypherReading.HashedMeans | cvcdocdb/nx_cypher.py:603-610 | what grouping and DISTINCT take for the same value, at any depth of lists and maps |
| CypherReading.TellsApartIff | cvcdocdb/nx_cypher.py:603-610 | they tell all values apart if and only if there are not both booleans and numbers among them |
| CypherProject.CountStarCounts | cvcdocdb/nx_cypher.py:1058-1062 | `count(*)` is the size of its group |
| CypherProject.ProjectRows | cvcdocdb/nx_cypher.py:1215-1218 | one entry per row, or an error exactly when some item has none |
| CypherProject.ProjectGroups | cvcdocdb/nx_cypher.py:1201-1214 | one entry per group, without grouping items also for no rows; an error exactly when a key or an entry has no value |
| CypherProject.UniqueEntriesAre | cvcdocdb/nx_cypher.py:1220-1228 | DISTINCT keeps one entry of all whose rows are the same to it |
| CypherReading.FirstEntries | cvcdocdb/nx_cypher.py:1221-1229 | namely the first, in order |
| CypherReading.SameRows | cvcdocdb/nx_cypher.py:1225 | rows are the same for DISTINCT if their values are |
| CypherReading.ItemYields | cvcdocdb/nx_cypher.py:1214-1219 | under each alias a row has the value of the last item of that name |
| CypherReading.GroupYields | cvcdocdb/nx_cypher.py:1212-1215 | a group's row has the items' values seen from its first row |
| CypherReading.GroupingAre | cvcdocdb/nx_cypher.py:1205 | the items that group are those without an aggregation |
| CypherProject.KeysTransitive | cvcdocdb/nx_cypher.py:1250-1255 | the order of sort keys with mixed directions is transitive |
| CypherProject.Sort | cvcdocdb/nx_cypher.py:1248-1258 | a permutation; sorted, and stable, whenever the values can be ordered |
| CypherProject.ArrangedUnique | cvcdocdb/nx_cypher.py:1257-1258 | there is only one stable sorted arrangement, so any stable sort gives it |
| CypherReading.KeysDecide | cvcdocdb/nx_cypher.py:1250-1255 | the first key in which two entries are not level decides, in its own direction |
| CypherReading.SortValueIs | cvcdocdb/nx_cypher.py:1231-1246 | an entry is sorted by the projected item of the key's text, or by the key's value |
| CypherReading.NumbersInOrder | cvcdocdb/nx_cypher.py:1248-1258 | ascending numbers do not fall, descending numbers do not rise, and equal ones keep their order |
| CypherReading.TextsInOrder | cvcdocdb/nx_cypher.py:1248-1258 | the same for texts |
| CypherReading.WindowIs | cvcdocdb/nx_cypher.py:1261-1264 | SKIP leaves out the first rows and LIMIT keeps the first of the rest, place by place |
| CypherReading.CountIs | cvcdocdb/nx_cypher.py:1269-1273 | their arguments are whole numbers that are not negative |
| CypherProject.Finish | cvcdocdb/nx_cypher.py:1220-1267 | DISTINCT, ORDER BY, the SKIP and LIMIT window, then WHERE, in that order; an error exactly when one of them has one |
| CypherProject.Project | cvcdocdb/nx_cypher.py:1193-1267 | the whole clause, and exactly when it succeeds |
| CypherReading.ClauseReads | cvcdocdb/nx_cypher.py:1220-1267 | the rows of a whole clause, place by place: of the entries in their order, those between SKIP and LIMIT of which WHERE holds |
| CypherReading.BestRows | cvcdocdb/nx_cypher.py:1215-1264 | `RETURN n.k AS a ORDER BY a LIMIT m` on numbers: the least, or descending the greatest, in order; no row left out is better than one returned |
| Filters.EqualsDecides | cvcdocdb/nx_cypher.py:613-631 | without nulls Cypher's equality is never unknown and is identity |
| Filters.MemberMeans | cvcdocdb/networkx_graph.py:1993-1994 | membership in null-free values is true in Cypher exactly when Python finds the value |
| Filters.ComparisonMeans | cvcdocdb/networkx_graph.py:1989-1992 | comparisons within one kind agree |
| FilterReading.MatchMeans | cvcdocdb/networkx_graph.py:2001-2055 | `_match`, when it raises nothing, accepts exactly the nodes the filter accepts, condition by condition and operator by operator |
| FilterReading.PyEqMeans | cvcdocdb/networkx_graph.py:1987-1988 | Python's `==`: the same value, once booleans are numbers |
| FilterReading.ListsCompared | cvcdocdb/networkx_graph.py:1989-1992 | lists are ordered by the first items that are not equal, or else by length |
| FilterReading.RefusedOperators | cvcdocdb/networkx_graph.py:2040-2046 | unknown operators and values that cannot be compared are errors, unless the field is not there |
| CypherReading.TextsCompared | cvcdocdb/networkx_graph.py:1986-1998 | each operator on two texts |
| FilterTranslation.Translator.Bind | cvcdocdb/neo4j_graph.py:180-184 | a fresh parameter; the earlier ones stay |
| FilterTranslation.Translator.Translate | cvcdocdb/neo4j_graph.py:190-192 | refuses exactly the filters with bad names or operators; otherwise the condition means the filter under every later binding |
| FilterReading.IdentifiersAre | cvcdocdb/neo4j_graph.py:60 | the field names that can be translated, spelled out |
| FilterReading.OperatorsAre | cvcdocdb/neo4j_graph.py:217-253 | the operators that can be translated, of the main label and of other fields |
| FilterTranslation.Translator.TranslateCondition | cvcdocdb/neo4j_graph.py:194-215 | the same for one condition, for all nestings; an expression unless an `$and` is empty |
| FilterTranslation.Translator.TranslateOperator | cvcdocdb/neo4j_graph.py:217-229 | the same for one operator |
| FilterTranslation.Translator.TranslateMainLabel | cvcdocdb/neo4j_graph.py:231-253 | the same for the main label, which is a label and no property |
| FilterTranslation.LabelAgrees | cvcdocdb/neo4j_graph.py:231-253 | on a node with one label, testing its labels is testing that label |
| FilterTranslation.FilterAgrees | cvcdocdb/networkx_graph.py:2001-2055 | where types fit, the filter is true in Cypher's logic exactly when `_match` accepts the node, below `$or`, `$and` and, for present fields, `$not` |
| FilterTranslation.DictFilterToCypher | cvcdocdb/neo4j_graph.py:256-262 | the produced text is an expression exactly when no `$and` is empty; then it and its parameters are true of a node exactly when `_match` accepts it |
| FilterTranslation.EmptyLists | cvcdocdb/neo4j_graph.py:195-202 | an empty `$and` is accepted by `_match` and by the translator, but is no expression; an empty `$or` works |
| FilterTranslation.UnknownIsUndecided | cvcdocdb/neo4j_graph.py:194-229 | the condition is unknown exactly when absent fields leave the filter undecided |
| FilterTranslation.NotIsExactIff | cvcdocdb/neo4j_graph.py:203-204 | `$not` is translated exactly if and only if absent fields do not leave the negated filter undecided |
| FilterTranslation.NotOfOneField | cvcdocdb/neo4j_graph.py:203-215 | for one field, whatever it is tested for: if and only if the field is there or its absence settles the test |
| Streaming.NamesDiffer | cvcdocdb/torch_dataloader.py:91-116 | parameter names with different numbers or operators differ |
| Streaming.FilterToCypher | cvcdocdb/torch_dataloader.py:65-117 | no binding overwrites another, so the clause means the part of the filter that is pushed down |
| Streaming.PushedAre | cvcdocdb/torch_dataloader.py:91-116 | which operators are pushed down, and what each tests |
| Streaming.SampleShows | cvcdocdb/torch_dataloader.py:441-450 | what is shown with a row: the node's properties, and its id, first label and key |
| Streaming.WhereKeepsMatches | cvcdocdb/torch_dataloader.py:65-117 | the clause never rejects a row that `_match` accepts, for conditions that keep their rows or fit the row |
| Streaming.KeepsIff | cvcdocdb/torch_dataloader.py:88-116 | for each operator and short form, a condition on a property loses no accepted row if and only if its operands have no nulls where they matter |
| Streaming.ShownFieldIsKeptIff | cvcdocdb/torch_dataloader.py:441-450 | an accepted row is kept by a test of the shown id, label or key if and only if what is pushed down asks nothing |
| Streaming.NullOperandIsLost | cvcdocdb/torch_dataloader.py:111-116 | with a null operand it loses nodes without the field |
| Streaming.MainLabelIsLost | cvcdocdb/torch_dataloader.py:88-116 | on the main label it loses every node that has it |
| Streaming.SlicesPartition | cvcdocdb/torch_dataloader.py:435-438 | every position belongs to exactly one worker |
| Streaming.SlicesAreEven | cvcdocdb/torch_dataloader.py:435-438 | each slice starts where the one before ends, and none is longer than an even split needs |
| Streaming.WorkersYieldAll | cvcdocdb/torch_dataloader.py:435-438 | the slices together are all rows, each once, in order |
| Streaming.IterNeo4j | cvcdocdb/torch_dataloader.py:235-279 | for any chunk size the paging loop yields exactly the accepted rows of the worker's slice, up to the first on which `_match` raises |
| Streaming.IterNetworkX | cvcdocdb/torch_dataloader.py:211-233 | the in-memory iterator yields exactly the accepted nodes of the worker's slice, up to the first on which `_match` raises |
| Streaming.StreamIsExact | cvcdocdb/torch_dataloader.py:235-279 | for any number of workers: all come to an end exactly if `_match` raises on no fetched row, and then yield together exactly the nodes the whole filter accepts, each once |
| Streaming.ItemsAreExact | cvcdocdb/torch_dataloader.py:211-233 | the same in memory |
| CompositeKeys.NumberedIsInjective | cvcdocdb/base.py:62-65 | a numbered name determines what it was made from |
| CompositeKeys.NewKey | cvcdocdb/base.py:52-65 | the first free numbered name; the loop ends |
| CompositeKeys.NewNameIs | cvcdocdb/base.py:52-65 | a field only the child has keeps its name; one its parent has too gets the first of `f_0`, `f_1` and so on that neither has |
| CompositeKeys.NewNamesDiffer | cvcdocdb/base.py:79-84 | renamed fields are fresh and distinct |
| CompositeKeys.MergePk | cvcdocdb/base.py:68-88 | the parent's fields kept, every field of the child kept under its new name, whatever the order of renaming |
| CompositeKeys.MergeIsUnique | cvcdocdb/base.py:81-86 | the merged key does not depend on that order |
| CompositeKeys.MergeSize | cvcdocdb/base.py:81-86 | no field is lost |
| CompositeKeys.ChainPassesParentCheck | cvcdocdb/networkx_graph.py:1232-1246 | along a chain built with explicit keys every node passes the parent-key check and has all its ancestors' key fields |
| Migration.StoredIsRegular | cvcdocdb/migration.py:297-327 | attributes as an insertion stores them can be taken apart and put together |
| Migration.SplitIs | cvcdocdb/migration.py:297-327 | what becomes of each attribute: key, property or bookkeeping, with and without a known key |
| Migration.LabelsFollow | cvcdocdb/migration.py:207-212 | the main label leads the labels, and the others follow |
| Migration.RegularKey | cvcdocdb/migration.py:297-327 | taking a node apart and inserting it keeps its key |
| Migration.NeverRefused | cvcdocdb/migration.py:209-213 | with `update`, inserting the copy of a node never meets a duplicate key, whatever the target holds |
| Migration.MigrateNode | cvcdocdb/migration.py:206-224 | a node that cannot be mistaken is copied with all its attributes; one that is there already does not change; reserved names are refused |
| Migration.MigrateNodes | cvcdocdb/migration.py:187-231 | phase 1: every node to keep has exactly one copy |
| Migration.MigrateEdges | cvcdocdb/migration.py:233-253 | phase 2: the ordinary relations between copied nodes are copied with their attributes, and nothing else is; reserved names are refused |
| Migration.DrawnIsOrdinary | cvcdocdb/base.py:459-474 | an isomorphic copy was made from relations with ordinary names and types only |
| Migration.Migrate | cvcdocdb/migration.py:185-253 | into an empty store an isomorphic copy if and only if names and types are ordinary; run again no change; migrated nodes and relations are those to keep, and the others are skipped; a failed run changes nothing |
| Migration.ReservedProperty | cvcdocdb/migration.py:209-213 | properties called `self` or `attributes`, or of the empty name, make a node that is regular but cannot be copied |
| Migration.ReservedAttribute | cvcdocdb/base.py:459-474 | attributes called like the arguments of `Relation` are refused; `_type` replaces the type |
| Migration.NamesAre | cvcdocdb/migration.py:209-213 | a node can be made into an object exactly if it has no property of three names |
| Migration.RelationIsMade | cvcdocdb/base.py:459-474 | which attributes a relation can be made of, and what becomes of them |
| Migration.TypesCollapse | cvcdocdb/base.py:468 | types that differ in case only become one |

## Left out

- HTTP, SPARQL text, pickle, file locks, timeouts and threads: only their effect is modelled (an atomic
  update request, an atomic replacement of a file, mutual exclusion). Failures inside a save are not.
- `JenaGraph.clear()`, which resets the stamp, and named graphs: the default graph is modelled.
- The reading of a conflict error as "nothing was applied": it is not claimed.
- The JSON codec of containers is a parameter; `RdfMapping.ValueRoundTrip` says for which values a codec works.
  Floats and dates are their texts, dictionaries have no order, labels are strings.
- Malformed UTF-8: decoding takes one byte for each replacement character. Digits are the ASCII digits.
- The order of the operations for the changed subjects of a save, which the code sorts.
- Dependencies of nodes (`Valor` nodes), `get_node_pks`, vector indexes, networkx's own attribute copies.
- NetworkXGraph.Graph.DeleteNode: recursive deletes outside hierarchies (where a node has two predecessors, or the root
  is reached again) are not modelled.
- NetworkXGraph.Graph.SetNullDelete: not for nodes with self-loops, where the code changes a set while iterating over it.
- NetworkXGraph.Graph.InsertNode: replacing a node that is no root of a hierarchy, or a weak node whose parent goes along with it,
  is not modelled (`StoreArguments.ReplaceSafe`).
- NetworkXGraph.Graph.InsertRelation: ends are named by label and key, as `Relation` objects name them, not by internal id.
- NetworkXGraph.Graph.InitPropagation: the background thread and the progress callback.
- GroupCreation.CreateGroup: of a run in which an object comes before its own parent, comes twice, or is below one with
  its own parent's key (`GroupCreation.AllSmooth`) only this is said, that it changes nothing if it fails; the
  ids a failed run leaves in the objects are not modelled.
- CypherMatch.Match: of several errors in one clause, the one that is raised may be another, since the code
  evaluates WHERE as it finds each match.
- In `StoreIndexes.KeyText` containers have no text of their own. In `Values.Normal` floats are their texts, so `1.0` is
  not `1`, and a dict is not the list of its pairs.
- GuardedWrites.Serialisable: blocks entered with `write=False` do not mutate, and exceptions are not caught inside a block.
- Cypher: tokenizer and parser, arithmetic, scalar functions, `=~`, `RETURN *`, `sum` and `avg`, the conversion of
  results, and the engine for write queries. Numbers are exact (`1` and `1.0` are one value, NaN is not there), and maps
  compare structurally.
- Filters: `$regex`, and the text of conditions, which are trees here. Maps compare structurally.
- Streaming.StreamIsExact: the store does not change meanwhile, and conditions keep their rows (`Streaming.Pushable`);
  floating-point rounding in the division by the number of workers is not modelled.
- Streaming.KeepsIff: one operator for each field, whose values are booleans or numbers but not both; `$in` and `$nin`
  take lists, and the order of dates, and of lists, is left to the server.
- FilterTranslation.NotIsExactIff: stored lists hold no nulls, and below a `$not` inside the negated filter fields are definite.
- CompositeKeys.MergePk: the single-field key format of version 3.
- Migration.Migrate: errors are raised, not skipped (an error caught inside a batch leaves what the failed call had already
  written), nothing is replaced, both stores are in memory, filters are one predicate, relation types are text;
  Python's `upper` is a parameter, of which only that it is idempotent is used; vector and key indexes (phases 3 and 4), and chunking, are not modelled.
- The remote backends, the viewer, schema generation, text-to-query translation and the entity classes: they would
  add no harder properties.
