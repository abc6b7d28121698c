/** The server side of web_ui.go: result narration with its fallback, the query endpoint that
    chains synthesis, execution and narration, and the package globals (driver, llm, schema,
    dataLoaded) behind the status and load endpoints. */
module WebUI {
  import opened Strings
  import opened Clients
  import opened Rag
  import opened GraphStore
  import opened Loader

  // ---------------------------------------------------------------------------------------
  // Narration (generateNaturalResponse)
  // ---------------------------------------------------------------------------------------

  /** The prompt's fixed guidance, abbreviated: the model keeps where the question, the query
      and the results go. */
  const NarrationRole := "You are a helpful assistant"
  const NarrationPromptHead := NarrationRole + " that explains Marvel Comics knowledge graph results in natural language.\n\nUser Question: \""
  const NarrationPromptQuery := "\"\nCypher Query Executed: "
  const NarrationPromptResults := "\nGraph Database Results: "
  const NarrationPromptTail := "\n\n<response guidelines>\n\nWrite a natural response as if you're a knowledgeable Marvel Comics expert:"

  function NarrationPrompt(question: string, cypher: string, results: string): string {
    NarrationPromptHead + question + NarrationPromptQuery + cypher + NarrationPromptResults + results + NarrationPromptTail
  }

  const FallbackPrefix :=
    "I found some information in the Marvel knowledge graph, but I couldn't generate a natural response. Here are the raw results: "

  /** The literal-data answer used when the LLM gives no prose. */
  function Fallback(results: string): string {
    FallbackPrefix + results
  }

  /** The narration chosen from the LLM's answer. */
  function NarrationOf(outcome: LlmOutcome, results: string): string {
    match outcome
    case LlmFailed(_) => Fallback(results)
    case Choices(contents) => if |contents| == 0 then Fallback(results) else TrimSpace(contents[0])
  }

  /** generateNaturalResponse */
  function GenerateNaturalResponse(llm: Llm, question: string, cypher: string, results: string): string {
    NarrationOf(llm(NarrationPrompt(question, cypher, results)), results)
  }

  /** The prompt carries the results text verbatim. */
  lemma NarrationPromptEmbedsResults(question: string, cypher: string, results: string)
    ensures Contains(NarrationPrompt(question, cypher, results), results)
  {
    var before := NarrationPromptHead + question + NarrationPromptQuery + cypher + NarrationPromptResults;
    assert NarrationPrompt(question, cypher, results) == before + results + NarrationPromptTail;
    OccursBetween(before, results, NarrationPromptTail);
    ContainsAt(before + results + NarrationPromptTail, results, |before|);
  }

  /** A failed call and an empty choice list give the same text: the fixed prefix followed by
      the raw results, which the caller gets back verbatim at the end. */
  lemma NarrationFailuresAgree(msg: string, results: string)
    ensures NarrationOf(LlmFailed(msg), results) == NarrationOf(Choices([]), results)
    ensures NarrationOf(Choices([]), results) == Fallback(results)
    ensures HasSuffix(Fallback(results), results) && |Fallback(results)| > |results|
  {
    var f := Fallback(results);
    assert f[|f| - |results|..] == results;
  }

  /** Narration is empty only when the LLM's first completion is nothing but white space: every
      failure mode degrades to the non-empty fallback. */
  lemma NarrationEmptyOnlyForBlankCompletion(outcome: LlmOutcome, results: string)
    requires NarrationOf(outcome, results) == ""
    ensures outcome.Choices? && |outcome.contents| > 0
    ensures forall k :: 0 <= k < |outcome.contents[0]| ==> IsSpace(outcome.contents[0][k])
  {
    assert |Fallback(results)| > 0;
    TrimSpaceSpec(outcome.contents[0]);
  }

  /** Non-empty prose is not guaranteed: a first completion made only of white space narrates
      as "", whatever the other completions are. */
  lemma NarrationCanBeEmpty(first: string, rest: seq<string>, results: string)
    requires forall k :: 0 <= k < |first| ==> IsSpace(first[k])
    ensures NarrationOf(Choices([first] + rest), results) == ""
  {
    TrimPadded(first, [], []);
    assert first + [] + [] == first;
  }

  // ---------------------------------------------------------------------------------------
  // The query endpoint (handleQuery)
  // ---------------------------------------------------------------------------------------

  datatype QueryResponse = QueryResponse(
    query: string,
    cypher: string,
    results: string,
    response: string,
    error: string,
    timestamp: string)

  /** An HTTP request: its method (verb) and the decoded "query" field, None when the body is not
      valid JSON for a QueryRequest. */
  datatype HttpRequest = HttpRequest(verb: string, body: Option<string>)

  datatype QueryReply =
    | QueryMethodNotAllowed          // 405
    | QueryBadRequest                // 400
    | QueryAnswered(response: QueryResponse)

  function SynthesisFailureText(msg: string): string {
    "Failed to generate query: " + msg
  }

  /** The response to a question: synthesis, then execution, then narration, with synthesis
      failure short-circuiting the rest. */
  function Answer(llm: Llm, store: Store, schema: string, question: string, now: string): QueryResponse {
    match GenerateCypherQuery(llm, question, schema)
    case Err(msg) => QueryResponse(question, "", "", "", SynthesisFailureText(msg), now)
    case Ok(cypher) =>
      var results := ExecutionText(store(cypher));
      QueryResponse(question, cypher, results, GenerateNaturalResponse(llm, question, cypher, results), "", now)
  }

  function QueryReplyFor(request: HttpRequest, llm: Llm, store: Store, schema: string, now: string): QueryReply {
    if request.verb != "POST" then QueryMethodNotAllowed
    else if request.body.None? then QueryBadRequest
    else QueryAnswered(Answer(llm, store, schema, request.body.value, now))
  }

  /** On synthesis failure only the question, the error and the time are set, and neither the
      store nor a second LLM call can influence the response: they are never consulted. */
  lemma AnswerShortCircuits(llm: Llm, llm': Llm, store: Store, store': Store, schema: string, question: string, now: string)
    requires GenerateCypherQuery(llm, question, schema).Err?
    requires llm'(CypherPrompt(schema, question)) == llm(CypherPrompt(schema, question))
    ensures Answer(llm, store, schema, question, now)
         == QueryResponse(question, "", "", "", "Failed to generate query: " + GenerateCypherQuery(llm, question, schema).msg, now)
    ensures Answer(llm', store', schema, question, now) == Answer(llm, store, schema, question, now)
  {
  }

  /** On synthesis success the three fields are the three stages' outputs, in order, and
      narration runs whatever the execution text is: an error string or "no results". */
  lemma AnswerChainsStages(llm: Llm, store: Store, schema: string, question: string, now: string)
    requires GenerateCypherQuery(llm, question, schema).Ok?
    ensures var a := Answer(llm, store, schema, question, now);
            var cypher := GenerateCypherQuery(llm, question, schema).value;
            && a.cypher == cypher
            && a.results == ExecutionText(store(cypher))
            && a.response == NarrationOf(llm(NarrationPrompt(question, cypher, a.results)), a.results)
            && a.error == ""
  {
  }

  /** The error field is set exactly when no query is reported. */
  lemma AnswerErrorIffNoQuery(llm: Llm, store: Store, schema: string, question: string, now: string)
    ensures var a := Answer(llm, store, schema, question, now);
            (a.error != "") <==> (a.cypher == "")
  {
    var synthesized := GenerateCypherQuery(llm, question, schema);
    if synthesized.Ok? {
      SynthesisSound(llm(CypherPrompt(schema, question)));
    }
  }

  /** The narration prompt and the query prompt never coincide: their fixed heads differ at
      the eleventh character. */
  lemma NarrationPromptIsNotCypherPrompt(question: string, cypher: string, results: string, schema: string, asked: string)
    ensures NarrationPrompt(question, cypher, results) != CypherPrompt(schema, asked)
  {
    var narration := NarrationPrompt(question, cypher, results);
    var cp := CypherPrompt(schema, asked);
    var nrest := question + NarrationPromptQuery + cypher + NarrationPromptResults + results + NarrationPromptTail;
    var crest := schema + CypherPromptRules + asked + CypherPromptExamples;
    assert narration == NarrationPromptHead + nrest;
    assert cp == CypherPromptHead + crest;
    assert narration[10] == NarrationPromptHead[10] == NarrationRole[10] == 'h';
    assert cp[10] == CypherPromptHead[10] == CypherRole[10] == 'C';
  }

  /** An LLM that answers the query prompt but fails on every other prompt still yields the
      query, its results, and the fallback embedding those results. */
  lemma AnswerWhenNarrationFails(llm: Llm, store: Store, schema: string, question: string, now: string)
    requires GenerateCypherQuery(llm, question, schema).Ok?
    requires forall p :: p != CypherPrompt(schema, question) ==> llm(p).LlmFailed?
    ensures var a := Answer(llm, store, schema, question, now);
            a.cypher != "" && a.error == "" && a.response == Fallback(a.results)
            && HasSuffix(a.response, a.results)
  {
    var cypher := GenerateCypherQuery(llm, question, schema).value;
    SynthesisSound(llm(CypherPrompt(schema, question)));
    var results := ExecutionText(store(cypher));
    NarrationPromptIsNotCypherPrompt(question, cypher, results, schema, question);
    assert llm(NarrationPrompt(question, cypher, results)).LlmFailed?;
    NarrationFailuresAgree(llm(NarrationPrompt(question, cypher, results)).msg, results);
  }

  // ---------------------------------------------------------------------------------------
  // Data presence (checkIfDataExists)
  // ---------------------------------------------------------------------------------------

  const CountCharactersStatement := "MATCH (c:Character) RETURN count(c) as count LIMIT 1"

  /** Whether the count query reports a Character node; None when its first value is not an
      integer (the `.(int64)` assertion panics). */
  function DataExists(outcome: StoreOutcome): Option<bool> {
    match outcome
    case StoreFailed(_) => Some(false)
    case Rows(rows) =>
      if |rows| == 0 || |rows[0]| == 0 then Some(false)
      else match rows[0][0]
        case IntVal(n) => Some(n > 0)
        case _ => None
  }

  /** What the count statement returns on a given graph. */
  function CharacterCount(g: GraphState): StoreOutcome {
    Rows([[IntVal(|g.characters|)]])
  }

  /** True only when the count succeeds with a positive first value; every other path that
      does not panic reports false. */
  lemma DataExistsIff(outcome: StoreOutcome)
    ensures DataExists(outcome) == Some(true) <==>
      outcome.Rows? && |outcome.rows| > 0 && |outcome.rows[0]| > 0
      && outcome.rows[0][0].IntVal? && outcome.rows[0][0].i > 0
  {
  }

  /** Against the real store the check reports exactly whether a Character node exists. */
  lemma DataExistsOnGraph(g: GraphState)
    ensures DataExists(CharacterCount(g)) == Some(g.characters != map[])
  {
    if g.characters != map[] {
      var id :| id in g.characters;
      assert id in g.characters.Keys;
    }
  }

  /** A load whose walk finds no CSV file (an empty dataset directory, or one holding only
      other files) stores nothing and does not stop the process, so the load endpoint reports
      success. */
  lemma EmptyWalkLoadsNothing(g: GraphState, entries: seq<Entry>, contents: Contents)
    requires forall k :: 0 <= k < |entries| ==> !IsCsvEntry(entries[k])
    ensures LoadAll(g, Ok(entries), contents) == Progress(EmptyGraph, false)
  {
    if CsvFiles(entries) != [] {
      CsvFilesIff(entries, CsvFiles(entries)[0]);
    }
  }

  // ---------------------------------------------------------------------------------------
  // The server and its globals
  // ---------------------------------------------------------------------------------------

  datatype Status = Status(neo4jConnected: bool, llmConnected: bool, dataLoaded: bool)

  datatype LoadReply =
    | LoadMethodNotAllowed   // 405
    | LoadSucceeded          // {"success": true, "message": "Data loaded successfully"}
    | LoadExited             // log.Fatalf inside the loader: the process is gone

  /** The package globals of web_ui.go, with the database they point at. */
  class Server {
    var driverConnected: bool   // driver != nil
    var llmConnected: bool      // llm != nil
    var schema: string
    var dataLoaded: bool
    const database: Graph

    ghost predicate Valid()
      reads this, database
    {
      database.Valid()
    }

    /** The globals before startWebUI runs: Go's zero values. */
    constructor (database: Graph)
      requires database.Valid()
      ensures Valid() && this.database == database
      ensures !driverConnected && !llmConnected && schema == "" && !dataLoaded
    {
      this.database := database;
      driverConnected, llmConnected, schema, dataLoaded := false, false, "", false;
    }

    /** startWebUI up to serving: a failed client creation or a panic in the start-up
        queries ends the process (`serving` false). */
    method Start(driverCreated: bool, llmCreated: bool, store: Store) returns (serving: bool)
      requires Valid()
      modifies this
      ensures Valid()
      ensures serving <==> (
        && driverCreated && llmCreated
        && SchemaSummary(store(LabelsStatement), store(RelationshipTypesStatement)).Some?
        && DataExists(store(CountCharactersStatement)).Some?)
      ensures serving ==> (
        && driverConnected && llmConnected
        && schema == SchemaSummary(store(LabelsStatement), store(RelationshipTypesStatement)).value
        && dataLoaded == DataExists(store(CountCharactersStatement)).value)
    {
      if !driverCreated {
        return false;
      }
      driverConnected := true;
      if !llmCreated {
        return false;
      }
      llmConnected := true;
      var summary := GetGraphSchema(store);
      if summary.None? {
        return false;
      }
      schema := summary.value;
      var present := DataExists(store(CountCharactersStatement));
      if present.None? {
        return false;
      }
      dataLoaded := present.value;
      serving := true;
    }

    /** handleStatus: the three flags, read independently. */
    method HandleStatus() returns (status: Status)
      ensures status.neo4jConnected == driverConnected
      ensures status.llmConnected == llmConnected
      ensures status.dataLoaded == dataLoaded
    {
      status := Status(driverConnected, llmConnected, dataLoaded);
    }

    /** handleQuery */
    method HandleQuery(request: HttpRequest, llm: Llm, store: Store, now: string) returns (reply: QueryReply)
      ensures reply == QueryReplyFor(request, llm, store, schema, now)
    {
      if request.verb != "POST" {
        return QueryMethodNotAllowed;
      }
      if request.body.None? {
        return QueryBadRequest;
      }
      var question := request.body.value;
      var synthesized := GenerateCypherQuery(llm, question, schema);
      if synthesized.Err? {
        return QueryAnswered(QueryResponse(question, "", "", "", SynthesisFailureText(synthesized.msg), now));
      }
      var results := ExecuteQuery(store, synthesized.value);
      var narration := GenerateNaturalResponse(llm, question, synthesized.value, results);
      return QueryAnswered(QueryResponse(question, synthesized.value, results, narration, "", now));
    }

    /** handleLoadData: a POST reloads the database; if the load returns, the flag is set and
        success is reported. The cached schema is not refreshed. */
    method HandleLoadData(verb: string, walk: Result<seq<Entry>>, contents: Contents) returns (reply: LoadReply)
      requires Valid()
      modifies this, database
      ensures Valid()
      ensures schema == old(schema) && driverConnected == old(driverConnected) && llmConnected == old(llmConnected)
      ensures verb != "POST" ==> reply == LoadMethodNotAllowed && dataLoaded == old(dataLoaded)
                                   && database.State() == old(database.State())
      ensures verb == "POST" ==> reply != LoadMethodNotAllowed
                                   && Progress(database.State(), reply == LoadExited)
                                      == LoadAll(old(database.State()), walk, contents)
      ensures dataLoaded == (reply == LoadSucceeded || (reply != LoadSucceeded && old(dataLoaded)))
    {
      if verb != "POST" {
        return LoadMethodNotAllowed;
      }
      var halted := LoadDataToNeo4j(database, walk, contents);
      if halted {
        return LoadExited;
      }
      dataLoaded := true;
      reply := LoadSucceeded;
    }
  }
}
