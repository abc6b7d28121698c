/** The CSV ingestion of neo4j_loader.go: collect the CSV files found by the directory walk,
    clear the database, load every node file, then every relationship file, routing each file
    by its directory and file name to one of two dataset shapes and turning each data row into
    a MERGE against the graph. */
module Loader {
  import opened Strings
  import opened Decimal
  import opened Clients
  import opened GraphStore

  /** A path the walk visited, named by filepath.Base of its directory and of itself. */
  datatype FileRef = FileRef(dir: string, name: string)

  datatype Entry = Entry(file: FileRef, isDir: bool)

  /** The parsed records of each readable file; a file with no entry cannot be opened or parsed. */
  type Contents = map<FileRef, seq<seq<string>>>

  // ---------------------------------------------------------------------------------------
  // Collecting the CSV files (the filepath.Walk callback)
  // ---------------------------------------------------------------------------------------

  predicate IsCsvEntry(e: Entry) {
    !e.isDir && HasSuffix(e.file.name, ".csv")
  }

  /** The CSV files, in walk order. */
  function CsvFiles(entries: seq<Entry>): seq<FileRef> {
    if entries == [] then []
    else (if IsCsvEntry(entries[0]) then [entries[0].file] else []) + CsvFiles(entries[1..])
  }

  method CollectCsvFiles(entries: seq<Entry>) returns (files: seq<FileRef>)
    ensures files == CsvFiles(entries)
  {
    files := [];
    var i := 0;
    while i < |entries|
      invariant 0 <= i <= |entries|
      invariant files + CsvFiles(entries[i..]) == CsvFiles(entries)
    {
      assert entries[i..] == [entries[i]] + entries[i + 1..];
      if !entries[i].isDir && HasSuffix(entries[i].file.name, ".csv") {
        files := files + [entries[i].file];
      }
      i := i + 1;
    }
    assert entries[i..] == [];
  }

  /** Exactly the non-directory entries whose name ends in ".csv" are collected. */
  lemma {:induction false} CsvFilesIff(entries: seq<Entry>, f: FileRef)
    ensures f in CsvFiles(entries) <==> exists k :: 0 <= k < |entries| && IsCsvEntry(entries[k]) && entries[k].file == f
  {
    if entries != [] {
      CsvFilesIff(entries[1..], f);
      if exists k :: 0 <= k < |entries[1..]| && IsCsvEntry(entries[1..][k]) && entries[1..][k].file == f {
        var k :| 0 <= k < |entries[1..]| && IsCsvEntry(entries[1..][k]) && entries[1..][k].file == f;
        assert entries[k + 1] == entries[1..][k];
      }
      if k :| 0 <= k < |entries| && IsCsvEntry(entries[k]) && entries[k].file == f {
        if k > 0 {
          assert entries[1..][k - 1] == entries[k];
        }
      }
    }
  }

  // ---------------------------------------------------------------------------------------
  // Routing a file to a dataset shape
  // ---------------------------------------------------------------------------------------

  const PartnershipsDir := "marvel_characters_partnerships"
  const SocialNetworkDir := "marvel_universe_social_network"

  /** What loading a file does with each data row. */
  datatype FileKind =
    | CharacterNodes   // partnerships nodes file: MERGE Character
    | PartnerLinks     // partnerships edges file: MERGE PARTNERS_WITH
    | HeroComicNodes   // social network nodes file: MERGE Hero or Comic by type tag
    | HeroLinks        // social network hero-network file: MERGE KNOWS
    | Appearances      // social network edges file: MERGE APPEARS_IN
    | Skipped          // anything else: no row is written

  /** The dispatch of loadCSVIntoNeo4j: the partnerships directory is tested first; inside the
      social network directory "hero-network" is tested before "edges". */
  function Route(f: FileRef): FileKind {
    var dir := Lower(f.dir);
    var name := Lower(f.name);
    if Contains(dir, PartnershipsDir) then
      if Contains(name, "nodes") then CharacterNodes
      else if Contains(name, "edges") then PartnerLinks
      else Skipped
    else if Contains(dir, SocialNetworkDir) then
      if Contains(name, "nodes") then HeroComicNodes
      else if Contains(name, "hero-network") then HeroLinks
      else if Contains(name, "edges") then Appearances
      else Skipped
    else Skipped
  }

  /** The routing precedence, spelled out. */
  lemma RoutingPrecedence(f: FileRef)
    ensures Contains(Lower(f.dir), PartnershipsDir) ==> Route(f) in {CharacterNodes, PartnerLinks, Skipped}
    ensures !Contains(Lower(f.dir), PartnershipsDir) && !Contains(Lower(f.dir), SocialNetworkDir) ==> Route(f) == Skipped
    ensures Route(f) == HeroLinks ==> Contains(Lower(f.name), "hero-network") && !Contains(Lower(f.name), "nodes")
    ensures Route(f) == Appearances ==> !Contains(Lower(f.name), "hero-network")
  {
  }

  // ---------------------------------------------------------------------------------------
  // One row, one MERGE
  // ---------------------------------------------------------------------------------------

  /** The effect of one data row of a file of the given kind. */
  function RowStep(g: GraphState, kind: FileKind, row: seq<string>): GraphState {
    match kind
    case CharacterNodes =>
      if |row| >= 3 then g.(characters := g.characters[row[1] := Character(row[1], row[0], Atoi(row[2]))])
      else g
    case PartnerLinks =>
      if |row| >= 2 && row[0] in g.characters && row[1] in g.characters
      then g.(partnersWith := g.partnersWith + {Edge(row[0], row[1])})
      else g
    case HeroComicNodes =>
      if |row| >= 2 && row[1] == "hero" then g.(heroes := g.heroes + {row[0]})
      else if |row| >= 2 && row[1] == "comic" then g.(comics := g.comics + {row[0]})
      else g
    case HeroLinks =>
      if |row| >= 2 && row[0] in g.heroes && row[1] in g.heroes
      then g.(knows := g.knows + {Edge(row[0], row[1])})
      else g
    case Appearances =>
      if |row| >= 2 && row[0] in g.heroes && row[1] in g.comics
      then g.(appearsIn := g.appearsIn + {Edge(row[0], row[1])})
      else g
    case Skipped => g
  }

  /** The rows' MERGEs, applied in file order. */
  function ApplyRows(g: GraphState, kind: FileKind, rows: seq<seq<string>>): GraphState
    decreases rows
  {
    if rows == [] then g else ApplyRows(RowStep(g, kind, rows[0]), kind, rows[1..])
  }

  /** loadCSVIntoNeo4j on a readable file: fewer than two records change nothing, and the
      first record, the header, is never a row. */
  function LoadFile(g: GraphState, f: FileRef, records: seq<seq<string>>): GraphState {
    if |records| < 2 then g else ApplyRows(g, Route(f), records[1..])
  }

  // ---------------------------------------------------------------------------------------
  // The row loops of loadCSVIntoNeo4j
  // ---------------------------------------------------------------------------------------

  method LoadCharacters(graph: Graph, data: seq<seq<string>>)
    requires graph.Valid()
    modifies graph
    ensures graph.Valid()
    ensures graph.State() == ApplyRows(old(graph.State()), CharacterNodes, data)
  {
    var i := 0;
    while i < |data|
      invariant 0 <= i <= |data| && graph.Valid()
      invariant ApplyRows(graph.State(), CharacterNodes, data[i..]) == ApplyRows(old(graph.State()), CharacterNodes, data)
    {
      var row := data[i];
      assert data[i..] == [row] + data[i + 1..];
      if |row| >= 3 {
        var size := Atoi(row[2]);
        graph.MergeCharacter(row[1], row[0], size);
      }
      i := i + 1;
    }
    assert data[i..] == [];
  }

  method LoadPartnerships(graph: Graph, data: seq<seq<string>>)
    requires graph.Valid()
    modifies graph
    ensures graph.Valid()
    ensures graph.State() == ApplyRows(old(graph.State()), PartnerLinks, data)
  {
    var i := 0;
    while i < |data|
      invariant 0 <= i <= |data| && graph.Valid()
      invariant ApplyRows(graph.State(), PartnerLinks, data[i..]) == ApplyRows(old(graph.State()), PartnerLinks, data)
    {
      var row := data[i];
      assert data[i..] == [row] + data[i + 1..];
      if |row| >= 2 {
        graph.MergePartnersWith(row[0], row[1]);
      }
      i := i + 1;
    }
    assert data[i..] == [];
  }

  method LoadHeroesAndComics(graph: Graph, data: seq<seq<string>>)
    requires graph.Valid()
    modifies graph
    ensures graph.Valid()
    ensures graph.State() == ApplyRows(old(graph.State()), HeroComicNodes, data)
  {
    var i := 0;
    while i < |data|
      invariant 0 <= i <= |data| && graph.Valid()
      invariant ApplyRows(graph.State(), HeroComicNodes, data[i..]) == ApplyRows(old(graph.State()), HeroComicNodes, data)
    {
      var row := data[i];
      assert data[i..] == [row] + data[i + 1..];
      if |row| >= 2 {
        if row[1] == "hero" {
          graph.MergeHero(row[0]);
        } else if row[1] == "comic" {
          graph.MergeComic(row[0]);
        }
      }
      i := i + 1;
    }
    assert data[i..] == [];
  }

  method LoadHeroLinks(graph: Graph, data: seq<seq<string>>)
    requires graph.Valid()
    modifies graph
    ensures graph.Valid()
    ensures graph.State() == ApplyRows(old(graph.State()), HeroLinks, data)
  {
    var i := 0;
    while i < |data|
      invariant 0 <= i <= |data| && graph.Valid()
      invariant ApplyRows(graph.State(), HeroLinks, data[i..]) == ApplyRows(old(graph.State()), HeroLinks, data)
    {
      var row := data[i];
      assert data[i..] == [row] + data[i + 1..];
      if |row| >= 2 {
        graph.MergeKnows(row[0], row[1]);
      }
      i := i + 1;
    }
    assert data[i..] == [];
  }

  method LoadAppearances(graph: Graph, data: seq<seq<string>>)
    requires graph.Valid()
    modifies graph
    ensures graph.Valid()
    ensures graph.State() == ApplyRows(old(graph.State()), Appearances, data)
  {
    var i := 0;
    while i < |data|
      invariant 0 <= i <= |data| && graph.Valid()
      invariant ApplyRows(graph.State(), Appearances, data[i..]) == ApplyRows(old(graph.State()), Appearances, data)
    {
      var row := data[i];
      assert data[i..] == [row] + data[i + 1..];
      if |row| >= 2 {
        graph.MergeAppearsIn(row[0], row[1]);
      }
      i := i + 1;
    }
    assert data[i..] == [];
  }

  /** loadCSVIntoNeo4j. An unreadable file stops the process (log.Fatalf): `halted`. */
  method LoadCsvIntoNeo4j(graph: Graph, f: FileRef, contents: Contents) returns (halted: bool)
    requires graph.Valid()
    modifies graph
    ensures graph.Valid()
    ensures halted <==> f !in contents
    ensures graph.State() == if halted then old(graph.State()) else LoadFile(old(graph.State()), f, contents[f])
  {
    if f !in contents {
      return true;
    }
    halted := false;
    var records := contents[f];
    if |records| < 2 {
      return;
    }
    var data := records[1..];
    var dir := Lower(f.dir);
    var name := Lower(f.name);
    if Contains(dir, PartnershipsDir) {
      if Contains(name, "nodes") {
        LoadCharacters(graph, data);
      } else if Contains(name, "edges") {
        LoadPartnerships(graph, data);
      } else {
        SkippedRowsChangeNothing(graph.State(), data);
      }
      return;
    }
    if Contains(dir, SocialNetworkDir) {
      if Contains(name, "nodes") {
        LoadHeroesAndComics(graph, data);
      } else if Contains(name, "hero-network") {
        LoadHeroLinks(graph, data);
      } else if Contains(name, "edges") {
        LoadAppearances(graph, data);
      } else {
        SkippedRowsChangeNothing(graph.State(), data);
      }
      return;
    }
    SkippedRowsChangeNothing(graph.State(), data);
  }

  // ---------------------------------------------------------------------------------------
  // The two phases and the whole load
  // ---------------------------------------------------------------------------------------

  datatype Phase = NodePhase | RelationshipPhase

  /** Which files a phase hands to loadCSVIntoNeo4j, by lower-cased file name. */
  predicate Selected(phase: Phase, f: FileRef) {
    match phase
    case NodePhase => Contains(Lower(f.name), "nodes")
    case RelationshipPhase => Contains(Lower(f.name), "edges") || Contains(Lower(f.name), "hero-network")
  }

  /** The graph reached, and whether the process stopped on an unreadable file. */
  datatype Progress = Progress(graph: GraphState, halted: bool)

  /** One phase: every selected file in walk order, stopping at the first unreadable one. */
  function RunPhase(g: GraphState, phase: Phase, files: seq<FileRef>, contents: Contents): Progress
    decreases files
  {
    if files == [] then Progress(g, false)
    else if !Selected(phase, files[0]) then RunPhase(g, phase, files[1..], contents)
    else if files[0] !in contents then Progress(g, true)
    else RunPhase(LoadFile(g, files[0], contents[files[0]]), phase, files[1..], contents)
  }

  method LoadNodesFirst(graph: Graph, files: seq<FileRef>, contents: Contents) returns (halted: bool)
    requires graph.Valid()
    modifies graph
    ensures graph.Valid()
    ensures Progress(graph.State(), halted) == RunPhase(old(graph.State()), NodePhase, files, contents)
  {
    var i := 0;
    while i < |files|
      invariant 0 <= i <= |files| && graph.Valid()
      invariant RunPhase(graph.State(), NodePhase, files[i..], contents) == RunPhase(old(graph.State()), NodePhase, files, contents)
    {
      var f := files[i];
      assert files[i..] == [f] + files[i + 1..];
      if Contains(Lower(f.name), "nodes") {
        halted := LoadCsvIntoNeo4j(graph, f, contents);
        if halted {
          return;
        }
      }
      i := i + 1;
    }
    assert files[i..] == [];
    halted := false;
  }

  method LoadRelationships(graph: Graph, files: seq<FileRef>, contents: Contents) returns (halted: bool)
    requires graph.Valid()
    modifies graph
    ensures graph.Valid()
    ensures Progress(graph.State(), halted) == RunPhase(old(graph.State()), RelationshipPhase, files, contents)
  {
    var i := 0;
    while i < |files|
      invariant 0 <= i <= |files| && graph.Valid()
      invariant RunPhase(graph.State(), RelationshipPhase, files[i..], contents)
             == RunPhase(old(graph.State()), RelationshipPhase, files, contents)
    {
      var f := files[i];
      assert files[i..] == [f] + files[i + 1..];
      if Contains(Lower(f.name), "edges") || Contains(Lower(f.name), "hero-network") {
        halted := LoadCsvIntoNeo4j(graph, f, contents);
        if halted {
          return;
        }
      }
      i := i + 1;
    }
    assert files[i..] == [];
    halted := false;
  }

  /** loadDataToNeo4j from the walk on: a failed walk stops the process before anything is
      written; otherwise the database is cleared, then the node phase runs to completion before
      the relationship phase starts. */
  function LoadAll(g: GraphState, walk: Result<seq<Entry>>, contents: Contents): Progress {
    match walk
    case Err(_) => Progress(g, true)
    case Ok(entries) =>
      var files := CsvFiles(entries);
      var afterNodes := RunPhase(EmptyGraph, NodePhase, files, contents);
      if afterNodes.halted then afterNodes
      else RunPhase(afterNodes.graph, RelationshipPhase, files, contents)
  }

  method LoadDataToNeo4j(graph: Graph, walk: Result<seq<Entry>>, contents: Contents) returns (halted: bool)
    requires graph.Valid()
    modifies graph
    ensures graph.Valid()
    ensures Progress(graph.State(), halted) == LoadAll(old(graph.State()), walk, contents)
  {
    if walk.Err? {
      return true;
    }
    var files := CollectCsvFiles(walk.value);
    graph.Clear();
    halted := LoadNodesFirst(graph, files, contents);
    if halted {
      return;
    }
    halted := LoadRelationships(graph, files, contents);
  }

  // ---------------------------------------------------------------------------------------
  // Closed forms of the row loops
  // ---------------------------------------------------------------------------------------

  /** The Character nodes a row writes (id -> properties). */
  function RowCharacter(row: seq<string>): map<string, Character> {
    if |row| >= 3 then map[row[1] := Character(row[1], row[0], Atoi(row[2]))] else map[]
  }

  /** The Character nodes a file's rows write; a later row for the same id wins. */
  function CharacterUpdates(rows: seq<seq<string>>): map<string, Character> {
    if rows == [] then map[] else RowCharacter(rows[0]) + CharacterUpdates(rows[1..])
  }

  /** The ids a social network node file tags with `tag`. */
  function TaggedIds(rows: seq<seq<string>>, tag: string): set<string> {
    if rows == [] then {}
    else (if |rows[0]| >= 2 && rows[0][1] == tag then {rows[0][0]} else {}) + TaggedIds(rows[1..], tag)
  }

  /** The edges a link file's rows ask for whose endpoints are among `sources` and `targets`. */
  function Links(rows: seq<seq<string>>, sources: set<string>, targets: set<string>): set<Edge> {
    if rows == [] then {}
    else
      (if |rows[0]| >= 2 && rows[0][0] in sources && rows[0][1] in targets
       then {Edge(rows[0][0], rows[0][1])} else {})
      + Links(rows[1..], sources, targets)
  }

  lemma {:induction false} CharacterRowsClosedForm(g: GraphState, rows: seq<seq<string>>)
    ensures ApplyRows(g, CharacterNodes, rows) == g.(characters := g.characters + CharacterUpdates(rows))
    decreases rows
  {
    if rows != [] {
      var g1 := RowStep(g, CharacterNodes, rows[0]);
      assert g1 == g.(characters := g.characters + RowCharacter(rows[0]));
      CharacterRowsClosedForm(g1, rows[1..]);
      assert g.characters + RowCharacter(rows[0]) + CharacterUpdates(rows[1..])
          == g.characters + (RowCharacter(rows[0]) + CharacterUpdates(rows[1..]));
    } else {
      assert g.characters + map[] == g.characters;
    }
  }

  lemma {:induction false} NodeRowsClosedForm(g: GraphState, rows: seq<seq<string>>)
    ensures ApplyRows(g, HeroComicNodes, rows)
         == g.(heroes := g.heroes + TaggedIds(rows, "hero"), comics := g.comics + TaggedIds(rows, "comic"))
    decreases rows
  {
    if rows != [] {
      NodeRowsClosedForm(RowStep(g, HeroComicNodes, rows[0]), rows[1..]);
    }
  }

  lemma {:induction false} PartnerRowsClosedForm(g: GraphState, rows: seq<seq<string>>)
    ensures ApplyRows(g, PartnerLinks, rows)
         == g.(partnersWith := g.partnersWith + Links(rows, g.characters.Keys, g.characters.Keys))
    decreases rows
  {
    if rows != [] {
      PartnerRowsClosedForm(RowStep(g, PartnerLinks, rows[0]), rows[1..]);
    }
  }

  lemma {:induction false} KnowsRowsClosedForm(g: GraphState, rows: seq<seq<string>>)
    ensures ApplyRows(g, HeroLinks, rows) == g.(knows := g.knows + Links(rows, g.heroes, g.heroes))
    decreases rows
  {
    if rows != [] {
      KnowsRowsClosedForm(RowStep(g, HeroLinks, rows[0]), rows[1..]);
    }
  }

  lemma {:induction false} AppearsRowsClosedForm(g: GraphState, rows: seq<seq<string>>)
    ensures ApplyRows(g, Appearances, rows) == g.(appearsIn := g.appearsIn + Links(rows, g.heroes, g.comics))
    decreases rows
  {
    if rows != [] {
      AppearsRowsClosedForm(RowStep(g, Appearances, rows[0]), rows[1..]);
    }
  }

  lemma {:induction false} SkippedRowsChangeNothing(g: GraphState, rows: seq<seq<string>>)
    ensures ApplyRows(g, Skipped, rows) == g
  {
    if rows != [] {
      SkippedRowsChangeNothing(g, rows[1..]);
    }
  }

  /** Every row with at least three columns puts its second column among the Character ids. */
  lemma {:induction false} CharacterUpdatesKeys(rows: seq<seq<string>>, k: int)
    requires 0 <= k < |rows| && |rows[k]| >= 3
    ensures rows[k][1] in CharacterUpdates(rows)
  {
    if k > 0 {
      CharacterUpdatesKeys(rows[1..], k - 1);
    }
  }

  /** A link row whose endpoints both exist yields its edge. */
  lemma {:induction false} LinksContainRow(rows: seq<seq<string>>, sources: set<string>, targets: set<string>, k: int)
    requires 0 <= k < |rows| && |rows[k]| >= 2 && rows[k][0] in sources && rows[k][1] in targets
    ensures Edge(rows[k][0], rows[k][1]) in Links(rows, sources, targets)
  {
    if k > 0 {
      LinksContainRow(rows[1..], sources, targets, k - 1);
    }
  }

  /** Every edge a link file adds comes from one of its rows, with both endpoints present. */
  lemma {:induction false} LinksFromRows(rows: seq<seq<string>>, sources: set<string>, targets: set<string>, e: Edge)
    requires e in Links(rows, sources, targets)
    ensures e.source in sources && e.target in targets
    ensures exists k :: 0 <= k < |rows| && |rows[k]| >= 2 && rows[k][0] == e.source && rows[k][1] == e.target
  {
    if |rows[0]| >= 2 && rows[0][0] in sources && rows[0][1] in targets && e == Edge(rows[0][0], rows[0][1]) {
      assert |rows[0]| >= 2 && rows[0][0] == e.source && rows[0][1] == e.target;
    } else {
      LinksFromRows(rows[1..], sources, targets, e);
      var k :| 0 <= k < |rows[1..]| && |rows[1..][k]| >= 2 && rows[1..][k][0] == e.source && rows[1..][k][1] == e.target;
      assert rows[k + 1] == rows[1..][k];
    }
  }

  // ---------------------------------------------------------------------------------------
  // Properties of loading
  // ---------------------------------------------------------------------------------------

  /** MERGE makes loading a file idempotent: loading the same records twice in a row leaves the
      nodes and edges exactly as loading them once. */
  lemma LoadFileIdempotent(g: GraphState, f: FileRef, records: seq<seq<string>>)
    ensures LoadFile(LoadFile(g, f, records), f, records) == LoadFile(g, f, records)
  {
    if |records| >= 2 {
      var data := records[1..];
      var h := LoadFile(g, f, records);
      match Route(f)
      case CharacterNodes =>
        CharacterRowsClosedForm(g, data);
        CharacterRowsClosedForm(h, data);
        assert h.characters + CharacterUpdates(data) == h.characters;
      case PartnerLinks =>
        PartnerRowsClosedForm(g, data);
        PartnerRowsClosedForm(h, data);
      case HeroComicNodes =>
        NodeRowsClosedForm(g, data);
        NodeRowsClosedForm(h, data);
      case HeroLinks =>
        KnowsRowsClosedForm(g, data);
        KnowsRowsClosedForm(h, data);
      case Appearances =>
        AppearsRowsClosedForm(g, data);
        AppearsRowsClosedForm(h, data);
      case Skipped =>
        SkippedRowsChangeNothing(g, data);
        SkippedRowsChangeNothing(h, data);
    }
  }

  /** The header record never reaches the graph, and a file with fewer than two records is
      skipped. */
  lemma LoadFileIgnoresHeader(g: GraphState, f: FileRef, header1: seq<string>, header2: seq<string>, data: seq<seq<string>>)
    ensures LoadFile(g, f, [header1] + data) == LoadFile(g, f, [header2] + data)
    ensures LoadFile(g, f, [header1]) == g && LoadFile(g, f, []) == g
  {
    assert ([header1] + data)[1..] == data == ([header2] + data)[1..];
  }

  lemma {:induction false} RowStepKeeps(g: GraphState, kind: FileKind, row: seq<string>)
    ensures Grows(g, RowStep(g, kind, row))
    ensures WellFormed(g) ==> WellFormed(RowStep(g, kind, row))
  {
  }

  lemma {:induction false} ApplyRowsKeeps(g: GraphState, kind: FileKind, rows: seq<seq<string>>)
    ensures Grows(g, ApplyRows(g, kind, rows))
    ensures WellFormed(g) ==> WellFormed(ApplyRows(g, kind, rows))
    decreases rows
  {
    if rows != [] {
      RowStepKeeps(g, kind, rows[0]);
      ApplyRowsKeeps(RowStep(g, kind, rows[0]), kind, rows[1..]);
    }
  }

  /** Loading only adds: no node or edge is ever removed or replaced by another id, and every
      stored edge joins existing nodes of the right labels. */
  lemma LoadFileKeeps(g: GraphState, f: FileRef, records: seq<seq<string>>)
    ensures Grows(g, LoadFile(g, f, records))
    ensures WellFormed(g) ==> WellFormed(LoadFile(g, f, records))
  {
    if |records| >= 2 {
      ApplyRowsKeeps(g, Route(f), records[1..]);
    }
  }

  lemma {:induction false} RunPhaseKeeps(g: GraphState, phase: Phase, files: seq<FileRef>, contents: Contents)
    ensures Grows(g, RunPhase(g, phase, files, contents).graph)
    ensures WellFormed(g) ==> WellFormed(RunPhase(g, phase, files, contents).graph)
    decreases files
  {
    if files != [] {
      if !Selected(phase, files[0]) {
        RunPhaseKeeps(g, phase, files[1..], contents);
      } else if files[0] in contents {
        var h := LoadFile(g, files[0], contents[files[0]]);
        LoadFileKeeps(g, files[0], contents[files[0]]);
        RunPhaseKeeps(h, phase, files[1..], contents);
      }
    }
  }

  /** A phase in which no file is selected changes nothing and cannot stop the process. */
  lemma {:induction false} RunPhaseUnselected(g: GraphState, phase: Phase, files: seq<FileRef>, contents: Contents)
    requires forall k :: 0 <= k < |files| ==> !Selected(phase, files[k])
    ensures RunPhase(g, phase, files, contents) == Progress(g, false)
  {
    if files != [] {
      assert forall k :: 0 <= k < |files[1..]| ==> files[1..][k] == files[k + 1];
      RunPhaseUnselected(g, phase, files[1..], contents);
    }
  }

  /** A whole load leaves a well-formed graph, whatever the walk found. */
  lemma LoadAllWellFormed(g: GraphState, walk: Result<seq<Entry>>, contents: Contents)
    requires WellFormed(g)
    ensures WellFormed(LoadAll(g, walk, contents).graph)
  {
    if walk.Ok? {
      var files := CsvFiles(walk.value);
      RunPhaseKeeps(EmptyGraph, NodePhase, files, contents);
      var afterNodes := RunPhase(EmptyGraph, NodePhase, files, contents);
      RunPhaseKeeps(afterNodes.graph, RelationshipPhase, files, contents);
    }
  }

  /** Because the database is cleared first, loading twice gives what loading once gives. */
  lemma LoadAllTwiceIsOnce(g: GraphState, entries: seq<Entry>, contents: Contents)
    ensures LoadAll(LoadAll(g, Ok(entries), contents).graph, Ok(entries), contents) == LoadAll(g, Ok(entries), contents)
  {
  }

  /** In the node phase, every Character row of every partnerships node file the walk found
      ends up as a Character node (unless the process stopped). */
  lemma {:induction false} NodePhaseLoadsCharacter(g: GraphState, files: seq<FileRef>, contents: Contents, i: int, k: int)
    requires 0 <= i < |files| && Route(files[i]) == CharacterNodes
    requires files[i] in contents && 1 <= k < |contents[files[i]]| && |contents[files[i]][k]| >= 3
    requires !RunPhase(g, NodePhase, files, contents).halted
    ensures contents[files[i]][k][1] in RunPhase(g, NodePhase, files, contents).graph.characters
    decreases files
  {
    var f := files[0];
    if i == 0 {
      assert Selected(NodePhase, f);
      var records := contents[f];
      var h := LoadFile(g, f, records);
      CharacterRowsClosedForm(g, records[1..]);
      CharacterUpdatesKeys(records[1..], k - 1);
      RunPhaseKeeps(h, NodePhase, files[1..], contents);
    } else if !Selected(NodePhase, f) {
      NodePhaseLoadsCharacter(g, files[1..], contents, i - 1, k);
    } else {
      NodePhaseLoadsCharacter(LoadFile(g, f, contents[f]), files[1..], contents, i - 1, k);
    }
  }

  /** In the relationship phase, a PARTNERS_WITH row whose two characters exist when the phase
      starts always yields its edge, wherever its file sits in the walk order. */
  lemma {:induction false} RelationshipPhaseLinksPartners(g: GraphState, files: seq<FileRef>, contents: Contents, i: int, k: int)
    requires 0 <= i < |files| && Route(files[i]) == PartnerLinks
    requires files[i] in contents && 1 <= k < |contents[files[i]]|
    requires |contents[files[i]][k]| >= 2
    requires contents[files[i]][k][0] in g.characters && contents[files[i]][k][1] in g.characters
    requires !RunPhase(g, RelationshipPhase, files, contents).halted
    ensures Edge(contents[files[i]][k][0], contents[files[i]][k][1])
              in RunPhase(g, RelationshipPhase, files, contents).graph.partnersWith
    decreases files
  {
    var f := files[0];
    if i == 0 {
      assert Selected(RelationshipPhase, f);
      var records := contents[f];
      var h := LoadFile(g, f, records);
      PartnerRowsClosedForm(g, records[1..]);
      LinksContainRow(records[1..], g.characters.Keys, g.characters.Keys, k - 1);
      RunPhaseKeeps(h, RelationshipPhase, files[1..], contents);
    } else if !Selected(RelationshipPhase, f) {
      RelationshipPhaseLinksPartners(g, files[1..], contents, i - 1, k);
    } else {
      LoadFileKeeps(g, f, contents[f]);
      RelationshipPhaseLinksPartners(LoadFile(g, f, contents[f]), files[1..], contents, i - 1, k);
    }
  }

  /** Why nodes are loaded first: a partnership row between two characters listed in any
      partnerships node file is stored, whatever order the walk returned the files in. */
  lemma PartnershipsSurviveFileOrder(
    g: GraphState, entries: seq<Entry>, contents: Contents,
    edgeFile: int, edgeRow: int, sourceFile: int, sourceRow: int, targetFile: int, targetRow: int)
    requires !LoadAll(g, Ok(entries), contents).halted
    requires 0 <= edgeFile < |CsvFiles(entries)| && 0 <= sourceFile < |CsvFiles(entries)| && 0 <= targetFile < |CsvFiles(entries)|
    requires Route(CsvFiles(entries)[edgeFile]) == PartnerLinks
    requires Route(CsvFiles(entries)[sourceFile]) == CharacterNodes
    requires Route(CsvFiles(entries)[targetFile]) == CharacterNodes
    requires CsvFiles(entries)[edgeFile] in contents && CsvFiles(entries)[sourceFile] in contents
    requires CsvFiles(entries)[targetFile] in contents
    requires 1 <= edgeRow < |contents[CsvFiles(entries)[edgeFile]]| && |contents[CsvFiles(entries)[edgeFile]][edgeRow]| >= 2
    requires 1 <= sourceRow < |contents[CsvFiles(entries)[sourceFile]]| && |contents[CsvFiles(entries)[sourceFile]][sourceRow]| >= 3
    requires 1 <= targetRow < |contents[CsvFiles(entries)[targetFile]]| && |contents[CsvFiles(entries)[targetFile]][targetRow]| >= 3
    requires contents[CsvFiles(entries)[sourceFile]][sourceRow][1] == contents[CsvFiles(entries)[edgeFile]][edgeRow][0]
    requires contents[CsvFiles(entries)[targetFile]][targetRow][1] == contents[CsvFiles(entries)[edgeFile]][edgeRow][1]
    ensures Edge(contents[CsvFiles(entries)[edgeFile]][edgeRow][0], contents[CsvFiles(entries)[edgeFile]][edgeRow][1])
              in LoadAll(g, Ok(entries), contents).graph.partnersWith
  {
    var files := CsvFiles(entries);
    var afterNodes := RunPhase(EmptyGraph, NodePhase, files, contents);
    assert !afterNodes.halted;
    NodePhaseLoadsCharacter(EmptyGraph, files, contents, sourceFile, sourceRow);
    NodePhaseLoadsCharacter(EmptyGraph, files, contents, targetFile, targetRow);
    RelationshipPhaseLinksPartners(afterNodes.graph, files, contents, edgeFile, edgeRow);
  }
}
