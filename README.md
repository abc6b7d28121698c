# Marvel knowledge-graph RAG, modelled in Dafny

This project models the core of a Go program. The program answers natural-language
questions about Marvel Comics from a Neo4j knowledge graph in three stages:

1. A local LLM turns the question into a Cypher query.
2. The query runs against the graph.
3. The LLM turns the raw rows into prose.

The same program also loads the graph from CSV files. Nodes are loaded first and
relationships second, and it serves the pipeline over HTTP.

The model is split into modules:

- `Strings` and `Decimal` model the pieces of Go's standard library the program relies on:
  - `strings.TrimSpace` with the full `unicode.IsSpace` set;
  - `strings.ToUpper` and `strings.ToLower`;
  - `strings.Contains`, `strings.HasSuffix` and `strings.Join`;
  - `strconv.Atoi`: it gives 0 on a syntax error and clamps on a range error, and it reports a digit run that overflows uint64 before any later non-digit;
  - `%v` of integers.
- `Clients` models the two collaborators.
  - The graph store is a function from a statement to rows of values or an error.
  - The LLM is a function from a prompt to a list of completions or an error.
  - A row value returned by the driver is rendered as `%v` renders it (`Clients.Show`).
- `Rag` models `rag_with_langchain.go`:
  - the chat loop's quit test;
  - the schema summary (`getGraphSchema`, a method over the store);
  - the query-synthesis gate (`generateCypherQuery`);
  - query execution (`executeQuery`, a method whose loop folds the result cursor).
- `GraphStore` is the database as a `Graph` class whose MERGE methods update its node and
  edge sets in place. A MATCH-guarded edge MERGE adds nothing when an endpoint is missing.
- `Loader` models `neo4j_loader.go`:
  - collecting the CSV files from the directory walk;
  - routing a file by its directory and file name;
  - the five row loops of `loadCSVIntoNeo4j`, as methods on the `Graph`;
  - the node phase and the relationship phase;
  - the whole load, which clears the database first.

  Each method is proved against a function of the graph state. The lemmas beside them cover:
  - idempotence of loading a file;
  - the header row being ignored;
  - growth and well-formedness of the graph;
  - "clear then load" being idempotent;
  - the reason for the nodes-first ordering: a partnership between two listed characters is stored whatever order the walk returned the files in.
- `WebUI` models `web_ui.go`:
  - narration with its fallback (`generateNaturalResponse`);
  - the query endpoint, which chains the three stages and short-circuits on a synthesis failure;
  - `checkIfDataExists`;
  - the package globals as a `Server` class with the start-up, status, query and load-data handlers.

Both prompts keep their real opening sentence and the positions where the schema, question,
query and results are inserted. The long instruction blocks are abbreviated to placeholders.

A `log.Fatalf` is modelled as a `halted` (or `serving == false`) outcome. A Go type-assertion
panic is modelled as `None`. An unreadable or unparsable CSV file is a path missing from the
`Contents` map. The clock is the `now` parameter.

Two behaviours of the code are worth knowing:

- The narration can be empty. The code returns the trimmed first completion, which is `""`
  exactly when that completion is all white space (`WebUI.NarrationCanBeEmpty` and
  `WebUI.NarrationEmptyOnlyForBlankCompletion`).
- The load endpoint reports success and sets `dataLoaded` even when the walk found no CSV
  file, for example an empty dataset directory, so nothing was loaded (`WebUI.EmptyWalkLoadsNothing`).

## Model

| member | source | states |
|---|---|---|
| Strings.TrimSpaceSpec | rag_with_langchain.go:176 | TrimSpace removes exactly the white space at both ends: the result is a slice `s[i..j]` with every cut character a space and unspaced ends |
| Strings.TrimSpaceIdempotent | rag_with_langchain.go:44 | trimming an already trimmed line changes nothing |
| Strings.TrimPadded | rag_with_langchain.go:44 | any white-space padding around a word with unspaced ends trims back to the word |
| Strings.ContainsIff | rag_with_langchain.go:179 | Contains holds exactly when the pattern occurs at some index |
| Strings.JoinContainsPart | rag_with_langchain.go:208 | every joined part appears verbatim in the joined text |
| Decimal.Atoi | neo4j_loader.go:125 | the parsed size always lies in the 64-bit range, whatever the column holds |
| Decimal.AtoiRoundTrip | neo4j_loader.go:125 | reading back a printed 64-bit integer gives the same integer |
| Decimal.AtoiOfNonNumber | neo4j_loader.go:125 | a size column with a non-digit after the first character is stored as 0, since the parse error is ignored, unless the digits before the first non-digit overflow uint64 |
| Decimal.AtoiOfOverflow | neo4j_loader.go:125 | digits that overflow uint64 before any non-digit are stored as the bound of the sign's direction, whatever follows them |
| Rag.QuitAcceptsPaddingAndCase | rag_with_langchain.go:44-48 | "quit" in upper or lower case letters, padded with any white space, ends the chat |
| Rag.IsQuitIff | rag_with_langchain.go:44-46 | a line ends the chat exactly when its trim has four runes, each a letter of "quit" in either case, where the third may also be U+0130 (lower case 'i') |
| Rag.CollectNames | rag_with_langchain.go:79-88 | the collected names equal the string list in the first column of the first row, or a panic when an element is not a string |
| Rag.GetGraphSchema | rag_with_langchain.go:66-111 | the summary is the one determined by the two introspection outcomes |
| Rag.SchemaUnavailableIff | rag_with_langchain.go:75-77 | the "Graph schema unavailable" text comes exactly from a failed introspection statement |
| Rag.SchemaLineMentionsLabel | rag_with_langchain.go:110 | every listed label occurs in the summary line |
| Rag.SchemaLineMentionsRelationship | rag_with_langchain.go:110 | every listed relationship type occurs in the summary line |
| Rag.SchemaMentionsEveryName | rag_with_langchain.go:66-111 | with no panic, the summary exists and mentions every label and relationship type the store listed |
| Rag.CypherPromptEmbeds | rag_with_langchain.go:114-162 | the schema and the question are placed verbatim at their fixed positions in the prompt |
| Rag.UpperMatchAt | rag_with_langchain.go:179 | upper-casing puts MATCH at exactly the indices where "match" is spelt with each letter in either case |
| Rag.UpperMatchIff | rag_with_langchain.go:179 | the gate's test holds exactly when the query spells "match" somewhere, with each letter in either case |
| Rag.SynthesisFailures | rag_with_langchain.go:168-174 | an LLM error and an empty choice list each give their own error and never a query |
| Rag.SynthesisSound | rag_with_langchain.go:176-183 | an accepted query is the trimmed first completion and contains MATCH once upper-cased |
| Rag.SynthesisAcceptsAnyCase | rag_with_langchain.go:176-183 | a trimmed first completion holding "match" in any letter case is returned as it is |
| Rag.SynthesisRejectsWithoutMatch | rag_with_langchain.go:179-181 | a first completion without MATCH in any case is rejected with the fixed error |
| Rag.SynthesisIgnoresPadding | rag_with_langchain.go:176 | white space around the completion changes neither the verdict nor the query |
| Rag.ExecuteQuery | rag_with_langchain.go:186-209 | the returned text is the execution text of the store's outcome: the error line, the no-results line, or the first values joined by newlines |
| Rag.CollectedAppend | rag_with_langchain.go:195-202 | collecting over concatenated rows is the concatenation of the collections |
| Rag.CollectedEmptyIff | rag_with_langchain.go:199-205 | nothing is collected exactly when every row has no values |
| Rag.CollectedAt | rag_with_langchain.go:199-200 | row i's first value sits in the collection after those of the earlier rows |
| Rag.CollectedInRowOrder | rag_with_langchain.go:196-201 | later rows land later in the collection |
| Rag.ExecutionOfEmptyRows | rag_with_langchain.go:204-206 | rows without values give exactly the no-results line |
| Rag.ExecutionShowsEveryRow | rag_with_langchain.go:195-208 | the displayed first value of every non-empty row appears in the execution text |
| Rag.ExecutionOfOneValue | rag_with_langchain.go:204-208 | a single collected value is shown with no separator |
| Rag.NoResultsIsAmbiguous | rag_with_langchain.go:200-205 | a row whose value reads as the no-results line is indistinguishable from no rows |
| GraphStore.Graph.Clear | neo4j_loader.go:54-60 | DETACH DELETE leaves the empty graph |
| GraphStore.Graph.MergeCharacter | neo4j_loader.go:126-133 | the Character with that id now has name = id, the group and the size; nothing else changes |
| GraphStore.Graph.MergeHero | neo4j_loader.go:167-170 | the Hero id is added; nothing else changes |
| GraphStore.Graph.MergeComic | neo4j_loader.go:175-178 | the Comic id is added; nothing else changes |
| GraphStore.Graph.MergePartnersWith | neo4j_loader.go:143-150 | the PARTNERS_WITH edge is added exactly when both characters exist; the graph stays well formed |
| GraphStore.Graph.MergeKnows | neo4j_loader.go:189-196 | the KNOWS edge is added exactly when both heroes exist |
| GraphStore.Graph.MergeAppearsIn | neo4j_loader.go:206-213 | the APPEARS_IN edge is added exactly when the hero and the comic exist |
| Loader.CollectCsvFiles | neo4j_loader.go:24-33 | the walk loop collects the CSV files in walk order |
| Loader.CsvFilesIff | neo4j_loader.go:29-30 | a file is collected exactly when it is a non-directory entry whose name ends in ".csv" |
| Loader.RoutingPrecedence | neo4j_loader.go:121-224 | the partnerships directory is tested first, a file in neither dataset directory is skipped, and hero-network precedes edges |
| Loader.LoadCharacters | neo4j_loader.go:123-137 | the loop applies each row with at least three columns as a Character MERGE, in file order |
| Loader.LoadPartnerships | neo4j_loader.go:141-155 | the loop applies each row with at least two columns as a PARTNERS_WITH MERGE, in file order |
| Loader.LoadHeroesAndComics | neo4j_loader.go:164-184 | the loop applies each "hero" or "comic" row as a Hero or Comic MERGE; other tags are skipped |
| Loader.LoadHeroLinks | neo4j_loader.go:187-201 | the loop applies each row as a KNOWS MERGE |
| Loader.LoadAppearances | neo4j_loader.go:204-218 | the loop applies each row as an APPEARS_IN MERGE |
| Loader.LoadCsvIntoNeo4j | neo4j_loader.go:99-225 | the process halts exactly when the file cannot be read; otherwise the graph is the file's load, where fewer than two records or an unrecognised dataset change nothing |
| Loader.LoadNodesFirst | neo4j_loader.go:62-70 | every file whose lower-cased name holds "nodes" is loaded in walk order |
| Loader.LoadRelationships | neo4j_loader.go:72-80 | every file whose lower-cased name holds "edges" or "hero-network" is loaded in walk order |
| Loader.LoadDataToNeo4j | neo4j_loader.go:15-52 | a failed walk halts; otherwise the database is cleared, then the node phase and the relationship phase run |
| Loader.CharacterRowsClosedForm | neo4j_loader.go:123-137 | a characters file sets each listed id's properties, with a later row for the same id winning |
| Loader.NodeRowsClosedForm | neo4j_loader.go:164-184 | a social-network node file adds exactly the ids tagged "hero" and those tagged "comic" |
| Loader.PartnerRowsClosedForm | neo4j_loader.go:141-155 | a partnerships edge file adds exactly the rows' edges between existing characters |
| Loader.KnowsRowsClosedForm | neo4j_loader.go:187-201 | a hero-network file adds exactly the rows' edges between existing heroes |
| Loader.AppearsRowsClosedForm | neo4j_loader.go:204-218 | an edges file adds exactly the rows' edges from existing heroes to existing comics |
| Loader.SkippedRowsChangeNothing | neo4j_loader.go:224 | an unrecognised file changes nothing |
| Loader.CharacterUpdatesKeys | neo4j_loader.go:124-130 | every row with at least three columns makes its second column a Character id |
| Loader.LinksContainRow | neo4j_loader.go:142-150 | a link row whose endpoints both exist yields its edge |
| Loader.LinksFromRows | neo4j_loader.go:142-150 | every added edge comes from some row whose endpoints exist |
| Loader.LoadFileIdempotent | neo4j_loader.go:99-225 | loading the same file twice in a row is loading it once |
| Loader.LoadFileIgnoresHeader | neo4j_loader.go:114-118 | the header record never matters, and files with fewer than two records change nothing |
| Loader.RowStepKeeps | neo4j_loader.go:123-219 | one row never removes a node or an edge and keeps the graph well formed |
| Loader.ApplyRowsKeeps | neo4j_loader.go:123-219 | a file's rows never remove anything and keep the graph well formed |
| Loader.LoadFileKeeps | neo4j_loader.go:99-225 | loading a file only adds to the graph and keeps it well formed |
| Loader.RunPhaseKeeps | neo4j_loader.go:62-80 | a phase only adds to the graph and keeps it well formed |
| Loader.RunPhaseUnselected | neo4j_loader.go:62-80 | a phase that selects no file changes nothing and cannot halt |
| Loader.LoadAllWellFormed | neo4j_loader.go:15-52 | a whole load leaves every edge between existing nodes of the right labels |
| Loader.LoadAllTwiceIsOnce | neo4j_loader.go:41-49 | since the database is cleared first, loading twice gives what loading once gives |
| Loader.NodePhaseLoadsCharacter | neo4j_loader.go:62-70 | when the node phase does not halt, every character row of every partnerships node file is stored |
| Loader.RelationshipPhaseLinksPartners | neo4j_loader.go:72-80 | a partnership row whose two characters exist when the phase starts yields its edge |
| Loader.PartnershipsSurviveFileOrder | neo4j_loader.go:47-49 | a partnership between two characters listed in node files is stored whatever order the walk returned the files in |
| WebUI.NarrationPromptEmbedsResults | web_ui.go:805-819 | the narration prompt carries the results text verbatim |
| WebUI.NarrationFailuresAgree | web_ui.go:825-831 | an LLM error and an empty choice list give the same fallback, which ends with the raw results and is longer than them |
| WebUI.NarrationEmptyOnlyForBlankCompletion | web_ui.go:804-834 | narration is empty only when the first completion is all white space |
| WebUI.NarrationCanBeEmpty | web_ui.go:833 | a first completion made only of white space narrates as the empty string, whatever the other completions are |
| WebUI.AnswerShortCircuits | web_ui.go:724-735 | on synthesis failure only the question, the error and the time are set, and neither the store nor any other LLM answer can change the response |
| WebUI.AnswerChainsStages | web_ui.go:737-749 | on synthesis success the response carries the query, its execution text and the narration of that text, with no error |
| WebUI.AnswerErrorIffNoQuery | web_ui.go:724-749 | the error field is set exactly when no query is reported |
| WebUI.NarrationPromptIsNotCypherPrompt | web_ui.go:805 | the narration prompt never coincides with a query-synthesis prompt |
| WebUI.AnswerWhenNarrationFails | web_ui.go:737-749 | an LLM that fails on narration still yields the query, its results and the fallback that embeds them |
| WebUI.DataExistsIff | web_ui.go:783-802 | data is reported present exactly when the count's first value is a positive integer |
| WebUI.DataExistsOnGraph | web_ui.go:788-797 | against the graph, the check reports exactly whether a Character node exists |
| WebUI.EmptyWalkLoadsNothing | web_ui.go:772-774 | a walk that finds no CSV file leaves the empty graph without halting |
| WebUI.Server.constructor | web_ui.go:30-35 | the globals start at Go's zero values |
| WebUI.Server.Start | web_ui.go:37-56 | serving starts exactly when both clients are created and neither start-up query panics, with the schema and the data flag taken from those queries |
| WebUI.Server.HandleStatus | web_ui.go:755-763 | the status reports the three globals |
| WebUI.Server.HandleQuery | web_ui.go:711-753 | a non-POST request gives 405, an undecodable body 400, and otherwise the pipeline's answer |
| WebUI.Server.HandleLoadData | web_ui.go:765-781 | a non-POST request gives 405 and changes nothing; a POST reloads the graph, sets the data flag only when the load returns, and never refreshes the schema |

## Left out

- The HTML page (`handleHome`), HTTP routing, JSON encoding, headers and `ListenAndServe`. A
  request is reduced to its method and its decoded question.
- Driver, session and context lifecycle. This includes the driver that `loadDataToNeo4j`
  creates for itself, whose creation failure is not modelled.
- `createSchema` is left out. Uniqueness constraints are implied by the model's keyed maps and sets, and the only effect it can have beyond that is a fatal error on a store failure.
- A store error raised while `executeQuery` streams the cursor. The code never checks
  `result.Err()` (rag_with_langchain.go:196-202), so such a run shows the rows read so far, or
  the no-results line. In the model that is a `Rows` outcome holding only those rows; the model
  has no separate outcome for it.
- The `log.Fatalf` of `clearDatabase` (neo4j_loader.go:55-58). `Graph.Clear` always succeeds.
- Store errors on individual MERGE statements. The program logs them and continues, and the
  model treats every MERGE as succeeding.
- CSV parsing (`encoding/csv`) and `filepath.Walk`/`filepath.Base`. A file is given as its
  parsed records, a walk as its entries or its error, and a path as its directory and file
  names. `encoding/csv` rejects records with uneven field counts, which the model does not
  enforce.
- Printing and logging, including the console chat loop apart from its quit test.
- The long instruction blocks of both prompts. Only their opening sentences and where the
  inserted values go are kept.
- `%v` of floats, maps, nodes and paths. Such values carry their rendered text.
- Strings.Upper, Strings.Lower: only ASCII letters and the four runes whose case partner is
  ASCII (U+0131, U+017F, U+0130, U+212A) are case-mapped; every other rune is kept where Go's
  tables would map it. Every case-folded test in the program compares against ASCII text
  ("quit", "match", "nodes", "edges", "hero-network" and the dataset directory names), and
  for those tests only runes that map to or from ASCII can change the verdict.
- Loader.FileRef: a walked file is named by the base names of its directory and of itself.
  Two paths that share both, such as `dataset/a/marvel_characters_partnerships/nodes.csv`
  and `dataset/b/marvel_characters_partnerships/nodes.csv`, must therefore have the same
  contents in the model.
- Concurrency between HTTP handlers, which share the globals without locks.
- The clock. `getCurrentTimestamp` (web_ui.go:836-838) is the `now` parameter.
- `main.go` is not part of this model.
