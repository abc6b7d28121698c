/** The question-answering core of rag_with_langchain.go: the schema summary used as prompt
    context, the gate that turns an LLM completion into a Cypher query, the executor that folds
    result rows into one display string, and the chat loop's quit test. */
module Rag {
  import opened Strings
  import opened Clients

  // ---------------------------------------------------------------------------------------
  // The chat loop's exit test
  // ---------------------------------------------------------------------------------------

  /** The line typed at the prompt ends the chat when, trimmed and lower-cased, it is "quit". */
  function IsQuit(line: string): bool {
    Lower(TrimSpace(line)) == "quit"
  }

  /** "quit" in any mix of upper and lower case, padded with any white space, ends the chat. */
  lemma QuitAcceptsPaddingAndCase(pre: string, w: string, post: string)
    requires forall k :: 0 <= k < |pre| ==> IsSpace(pre[k])
    requires forall k :: 0 <= k < |post| ==> IsSpace(post[k])
    requires |w| == 4 && forall k :: 0 <= k < 4 ==> w[k] == "quit"[k] || w[k] == "QUIT"[k]
    ensures IsQuit(pre + w + post)
  {
    TrimPadded(pre, w, post);
    assert Lower(w) == "quit";
  }

  /** The quit test exactly: the trimmed line has four runes, each a letter of "quit" in either
      case, where the third may also be U+0130, whose lower case is 'i'. */
  lemma IsQuitIff(line: string)
    ensures IsQuit(line) <==> (
      var t := TrimSpace(line);
      |t| == 4 && forall k :: 0 <= k < 4 ==> t[k] == "quit"[k] || t[k] == "QUIT"[k] || (k == 2 && t[k] == '\U{0130}'))
  {
    var t := TrimSpace(line);
    if IsQuit(line) {
      forall k | 0 <= k < 4
        ensures t[k] == "quit"[k] || t[k] == "QUIT"[k] || (k == 2 && t[k] == '\U{0130}')
      {
        assert LowerChar(t[k]) == Lower(t)[k] == "quit"[k];
      }
    }
    if |t| == 4 && forall k :: 0 <= k < 4 ==> t[k] == "quit"[k] || t[k] == "QUIT"[k] || (k == 2 && t[k] == '\U{0130}') {
      forall k | 0 <= k < 4
        ensures Lower(t)[k] == "quit"[k]
      {
        assert Lower(t)[k] == LowerChar(t[k]);
      }
    }
  }

  // ---------------------------------------------------------------------------------------
  // Schema introspection (getGraphSchema)
  // ---------------------------------------------------------------------------------------

  const LabelsStatement := "CALL db.labels() YIELD label RETURN collect(label) as labels"
  const RelationshipTypesStatement :=
    "CALL db.relationshipTypes() YIELD relationshipType RETURN collect(relationshipType) as relationships"
  const SchemaUnavailable := "Graph schema unavailable"

  /** The names in a collected list, or None when one of them is not a string (the `.(string)`
      type assertion panics). */
  function StringsOf(items: seq<Value>): Option<seq<string>> {
    if forall k :: 0 <= k < |items| ==> items[k].StrVal? then
      Some(seq(|items|, k requires 0 <= k < |items| && items[k].StrVal? => items[k].s))
    else None
  }

  /** The list in the first column of the first row; no row or no column gives the empty list.
      None when the value is not a list (the `.([]interface{})` assertion panics). */
  function NamesOf(rows: seq<seq<Value>>): Option<seq<string>> {
    if |rows| == 0 || |rows[0]| == 0 then Some([])
    else match rows[0][0]
      case ListVal(items) => StringsOf(items)
      case _ => None
  }

  /** %v of a []string. */
  function Bracketed(names: seq<string>): string {
    "[" + Join(names, " ") + "]"
  }

  function SchemaLine(labels: seq<string>, relationships: seq<string>): string {
    "Node labels: " + Bracketed(labels) + ", Relationship types: " + Bracketed(relationships)
  }

  /** The summary built from the two introspection outcomes; None when the process panics. The
      relationship-type statement is only consulted once the label list has been read. */
  function SchemaSummary(labelsOutcome: StoreOutcome, relationshipsOutcome: StoreOutcome): Option<string> {
    match labelsOutcome
    case StoreFailed(_) => Some(SchemaUnavailable)
    case Rows(labelRows) =>
      match NamesOf(labelRows)
      case None => None
      case Some(labels) =>
        match relationshipsOutcome
        case StoreFailed(_) => Some(SchemaUnavailable)
        case Rows(relationshipRows) =>
          match NamesOf(relationshipRows)
          case None => None
          case Some(relationships) => Some(SchemaLine(labels, relationships))
  }

  /** Reads the names out of an introspection result, one element at a time. */
  method CollectNames(rows: seq<seq<Value>>) returns (names: Option<seq<string>>)
    ensures names == NamesOf(rows)
  {
    if |rows| == 0 || |rows[0]| == 0 {
      return Some([]);
    }
    if !rows[0][0].ListVal? {
      return None;
    }
    var items := rows[0][0].items;
    var collected: seq<string> := [];
    var i := 0;
    while i < |items|
      invariant 0 <= i <= |items|
      invariant forall k :: 0 <= k < i ==> items[k].StrVal?
      invariant |collected| == i && forall k :: 0 <= k < i ==> collected[k] == items[k].s
    {
      if !items[i].StrVal? {
        return None;
      }
      collected := collected + [items[i].s];
      i := i + 1;
    }
    assert collected == seq(|items|, k requires 0 <= k < |items| && items[k].StrVal? => items[k].s);
    return Some(collected);
  }

  /** getGraphSchema: the two introspection statements, then the summary line. */
  method GetGraphSchema(store: Store) returns (summary: Option<string>)
    ensures summary == SchemaSummary(store(LabelsStatement), store(RelationshipTypesStatement))
  {
    var labelsOutcome := store(LabelsStatement);
    if labelsOutcome.StoreFailed? {
      return Some(SchemaUnavailable);
    }
    var labels := CollectNames(labelsOutcome.rows);
    if labels.None? {
      return None;
    }
    var relationshipsOutcome := store(RelationshipTypesStatement);
    if relationshipsOutcome.StoreFailed? {
      return Some(SchemaUnavailable);
    }
    var relationships := CollectNames(relationshipsOutcome.rows);
    if relationships.None? {
      return None;
    }
    return Some(SchemaLine(labels.value, relationships.value));
  }

  /** The fixed "unavailable" text comes exactly from a failed introspection statement: a
      summary built from names can never be mistaken for it. */
  lemma SchemaUnavailableIff(labelsOutcome: StoreOutcome, relationshipsOutcome: StoreOutcome)
    ensures (SchemaSummary(labelsOutcome, relationshipsOutcome) == Some(SchemaUnavailable)) <==>
              (labelsOutcome.StoreFailed? ||
               (NamesOf(labelsOutcome.rows).Some? && relationshipsOutcome.StoreFailed?))
  {
    if labelsOutcome.Rows? && NamesOf(labelsOutcome.rows).Some? && relationshipsOutcome.Rows?
      && NamesOf(relationshipsOutcome.rows).Some?
    {
      var line := SchemaLine(NamesOf(labelsOutcome.rows).value, NamesOf(relationshipsOutcome.rows).value);
      assert line[0] == 'N' && SchemaUnavailable[0] == 'G';
    }
  }

  /** Every label the store listed appears in the summary line. */
  lemma {:induction false} SchemaLineMentionsLabel(labels: seq<string>, relationships: seq<string>, k: int)
    requires 0 <= k < |labels|
    ensures Contains(SchemaLine(labels, relationships), labels[k])
  {
    JoinContainsPart(labels, " ", k);
    var before: string := "Node labels: " + "[";
    var after: string := "]" + ", Relationship types: " + Bracketed(relationships);
    assert SchemaLine(labels, relationships) == before + Join(labels, " ") + after;
    ContainsWithin(before, Join(labels, " "), after, labels[k]);
  }

  /** Every relationship type the store listed appears in the summary line. */
  lemma {:induction false} SchemaLineMentionsRelationship(labels: seq<string>, relationships: seq<string>, k: int)
    requires 0 <= k < |relationships|
    ensures Contains(SchemaLine(labels, relationships), relationships[k])
  {
    JoinContainsPart(relationships, " ", k);
    var before: string := "Node labels: " + Bracketed(labels) + ", Relationship types: " + "[";
    assert SchemaLine(labels, relationships) == before + Join(relationships, " ") + "]";
    ContainsWithin(before, Join(relationships, " "), "]", relationships[k]);
  }

  /** A successful summary mentions every label and every relationship type the store listed. */
  lemma SchemaMentionsEveryName(labelRows: seq<seq<Value>>, relationshipRows: seq<seq<Value>>)
    requires NamesOf(labelRows).Some? && NamesOf(relationshipRows).Some?
    ensures SchemaSummary(Rows(labelRows), Rows(relationshipRows)).Some?
    ensures forall name ::
              (name in NamesOf(labelRows).value || name in NamesOf(relationshipRows).value) ==>
              Contains(SchemaSummary(Rows(labelRows), Rows(relationshipRows)).value, name)
  {
    var labels := NamesOf(labelRows).value;
    var relationships := NamesOf(relationshipRows).value;
    forall name | name in labels || name in relationships
      ensures Contains(SchemaLine(labels, relationships), name)
    {
      if name in labels {
        var k :| 0 <= k < |labels| && labels[k] == name;
        SchemaLineMentionsLabel(labels, relationships, k);
      } else {
        var k :| 0 <= k < |relationships| && relationships[k] == name;
        SchemaLineMentionsRelationship(labels, relationships, k);
      }
    }
  }

  // ---------------------------------------------------------------------------------------
  // Query synthesis (generateCypherQuery)
  // ---------------------------------------------------------------------------------------

  /** The prompt's fixed instruction blocks, abbreviated: the model keeps where the schema and
      the question go, not the wording of the rules and worked examples. */
  const CypherRole := "You are a Cypher query generator"
  const CypherPromptHead := CypherRole + " for a Neo4j Marvel Comics knowledge graph.\n\nGraph Schema:\n"
  const CypherPromptRules := "\n\n<data structure and mandatory rules>\n\nUser Question: \""
  const CypherPromptExamples := "\"\n\n<query patterns>\n\nOnly return the Cypher query, nothing else."

  function CypherPrompt(schema: string, question: string): string {
    CypherPromptHead + schema + CypherPromptRules + question + CypherPromptExamples
  }

  /** The prompt carries the schema summary and the user's question verbatim. */
  lemma CypherPromptEmbeds(schema: string, question: string)
    ensures OccursAt(CypherPrompt(schema, question), schema, |CypherPromptHead|)
    ensures OccursAt(CypherPrompt(schema, question), question,
      |CypherPromptHead| + |schema| + |CypherPromptRules|)
  {
    var head, rules, examples := CypherPromptHead, CypherPromptRules, CypherPromptExamples;
    OccursBetween(head, schema, rules + question + examples);
    OccursBetween(head + schema + rules, question, examples);
  }

  const MatchKeyword := "MATCH"
  const EmptyResponseError := "empty response from LLM"
  const NoMatchError := "generated query doesn't contain MATCH clause"

  function LlmFailureError(msg: string): string {
    "LLM generation failed: " + msg
  }

  /** The validation gate applied to the LLM's answer. */
  function SynthesisGate(outcome: LlmOutcome): Result<string> {
    match outcome
    case LlmFailed(msg) => Err(LlmFailureError(msg))
    case Choices(contents) =>
      if |contents| == 0 then Err(EmptyResponseError)
      else
        var query := TrimSpace(contents[0]);
        if !Contains(Upper(query), MatchKeyword) then Err(NoMatchError)
        else Ok(query)
  }

  /** generateCypherQuery: one single-turn request, then the gate. */
  function GenerateCypherQuery(llm: Llm, question: string, schema: string): Result<string> {
    SynthesisGate(llm(CypherPrompt(schema, question)))
  }

  /** "match" spelt with each letter in either case. */
  ghost predicate MatchAnyCaseAt(s: string, i: int) {
    0 <= i && i + 5 <= |s| && forall k :: 0 <= k < 5 ==> s[i + k] == "match"[k] || s[i + k] == "MATCH"[k]
  }

  /** Upper-casing puts MATCH at exactly the places where "match" is spelt in any letter case:
      no other rune upper-cases to M, A, T, C or H. */
  lemma UpperMatchAt(s: string, i: int)
    ensures OccursAt(Upper(s), MatchKeyword, i) <==> MatchAnyCaseAt(s, i)
  {
    if 0 <= i && i + 5 <= |s| {
      var u := Upper(s);
      if OccursAt(u, MatchKeyword, i) {
        forall k | 0 <= k < 5
          ensures s[i + k] == "match"[k] || s[i + k] == "MATCH"[k]
        {
          assert UpperChar(s[i + k]) == u[i + k] == u[i..i + 5][k] == "MATCH"[k];
        }
      }
      if MatchAnyCaseAt(s, i) {
        forall k | 0 <= k < 5
          ensures u[i..i + 5][k] == MatchKeyword[k]
        {
          assert u[i + k] == UpperChar(s[i + k]);
        }
      }
    }
  }

  /** The gate's test is a case-insensitive search for "match". */
  lemma UpperMatchIff(s: string)
    ensures Contains(Upper(s), MatchKeyword) <==> exists i :: MatchAnyCaseAt(s, i)
  {
    ContainsIff(Upper(s), MatchKeyword);
    if Contains(Upper(s), MatchKeyword) {
      var i :| OccursAt(Upper(s), MatchKeyword, i);
      UpperMatchAt(s, i);
    }
    if exists i :: MatchAnyCaseAt(s, i) {
      var i :| MatchAnyCaseAt(s, i);
      UpperMatchAt(s, i);
    }
  }

  /** A failed LLM call and an empty choice list each give their own error, never a query. */
  lemma SynthesisFailures(msg: string)
    ensures SynthesisGate(LlmFailed(msg)) == Err("LLM generation failed: " + msg)
    ensures SynthesisGate(Choices([])) == Err("empty response from LLM")
  {
  }

  /** What an accepted query is: the first completion with its surrounding white space cut
      off, holding "match" in some letter case at some position. */
  lemma SynthesisSound(outcome: LlmOutcome)
    requires SynthesisGate(outcome).Ok?
    ensures outcome.Choices? && |outcome.contents| > 0
    ensures IsTrimOf(outcome.contents[0], SynthesisGate(outcome).value)
    ensures exists i :: OccursAt(Upper(SynthesisGate(outcome).value), MatchKeyword, i)
    ensures |SynthesisGate(outcome).value| >= |MatchKeyword|
  {
    var query := SynthesisGate(outcome).value;
    TrimSpaceSpec(outcome.contents[0]);
    ContainsIff(Upper(query), MatchKeyword);
  }

  /** A first completion that holds "match" in any letter case, anywhere once trimmed, is
      accepted whatever follows it in the choice list. */
  lemma SynthesisAcceptsAnyCase(first: string, rest: seq<string>, i: int)
    requires OccursAt(Upper(TrimSpace(first)), MatchKeyword, i)
    ensures SynthesisGate(Choices([first] + rest)) == Ok(TrimSpace(first))
  {
    ContainsAt(Upper(TrimSpace(first)), MatchKeyword, i);
  }

  /** A first completion without "match" in any letter case is rejected, never returned. */
  lemma SynthesisRejectsWithoutMatch(first: string, rest: seq<string>)
    requires forall i :: !OccursAt(Upper(TrimSpace(first)), MatchKeyword, i)
    ensures SynthesisGate(Choices([first] + rest)) == Err(NoMatchError)
  {
    ContainsIff(Upper(TrimSpace(first)), MatchKeyword);
  }

  /** White space around the completion changes neither the verdict nor the query returned. */
  lemma SynthesisIgnoresPadding(pre: string, query: string, post: string, rest: seq<string>)
    requires forall k :: 0 <= k < |pre| ==> IsSpace(pre[k])
    requires forall k :: 0 <= k < |post| ==> IsSpace(post[k])
    requires query != [] ==> !IsSpace(query[0]) && !IsSpace(query[|query| - 1])
    ensures SynthesisGate(Choices([pre + query + post] + rest)) == SynthesisGate(Choices([query]))
  {
    TrimPadded(pre, query, post);
    TrimPadded([], query, []);
    assert [] + query + [] == query;
  }

  // ---------------------------------------------------------------------------------------
  // Query execution (executeQuery)
  // ---------------------------------------------------------------------------------------

  const NoResults := "\U{274C} No results found."
  const ExecutionErrorPrefix := "\U{274C} Query execution error: "

  /** The display string a row contributes: its first value's, or nothing for an empty row. */
  function FirstCell(row: seq<Value>): seq<string> {
    if |row| > 0 then [Show(row[0])] else []
  }

  /** The display strings collected from the rows, in row order. */
  function Collected(rows: seq<seq<Value>>): seq<string> {
    if rows == [] then [] else FirstCell(rows[0]) + Collected(rows[1..])
  }

  /** The text executeQuery returns for a store outcome. */
  function ExecutionText(outcome: StoreOutcome): string {
    match outcome
    case StoreFailed(msg) => ExecutionErrorPrefix + msg
    case Rows(rows) =>
      var results := Collected(rows);
      if |results| == 0 then NoResults else Join(results, "\n")
  }

  /** executeQuery: run the query text as it is, fold the cursor's rows into display strings. */
  method ExecuteQuery(store: Store, query: string) returns (text: string)
    ensures text == ExecutionText(store(query))
  {
    var outcome := store(query);
    if outcome.StoreFailed? {
      return ExecutionErrorPrefix + outcome.msg;
    }
    var rows := outcome.rows;
    var results: seq<string> := [];
    var i := 0;
    while i < |rows|
      invariant 0 <= i <= |rows|
      invariant results + Collected(rows[i..]) == Collected(rows)
    {
      var values := rows[i];
      assert rows[i..] == [values] + rows[i + 1..];
      if |values| > 0 {
        results := results + [Show(values[0])];
      }
      assert Collected(rows[i..]) == FirstCell(values) + Collected(rows[i + 1..]);
      i := i + 1;
    }
    assert rows[i..] == [];
    assert results == Collected(rows);
    if |results| == 0 {
      text := NoResults;
    } else {
      text := Join(results, "\n");
    }
    assert outcome == Rows(rows);
    assert text == ExecutionText(outcome);
  }

  /** Collecting is compositional: the rows of a concatenation contribute in order. */
  lemma {:induction false} CollectedAppend(a: seq<seq<Value>>, b: seq<seq<Value>>)
    ensures Collected(a + b) == Collected(a) + Collected(b)
  {
    if a == [] {
      assert a + b == b;
    } else {
      assert (a + b)[1..] == a[1..] + b;
      CollectedAppend(a[1..], b);
    }
  }

  /** Nothing is collected exactly when every row is empty. */
  lemma {:induction false} CollectedEmptyIff(rows: seq<seq<Value>>)
    ensures Collected(rows) == [] <==> forall i :: 0 <= i < |rows| ==> |rows[i]| == 0
  {
    if rows != [] {
      CollectedEmptyIff(rows[1..]);
      if forall i :: 1 <= i < |rows| ==> |rows[i]| == 0 {
        assert forall i :: 0 <= i < |rows[1..]| ==> |rows[1..][i]| == 0;
      }
      if forall i :: 0 <= i < |rows[1..]| ==> |rows[1..][i]| == 0 {
        assert forall i :: 1 <= i < |rows| ==> |rows[i]| == 0 by {
          forall i | 1 <= i < |rows| ensures |rows[i]| == 0 {
            assert rows[i] == rows[1..][i - 1];
          }
        }
      }
    }
  }

  /** Row i's first value sits in the collected list at the position given by the number of
      values collected before it; so values appear in row order and none is dropped. */
  lemma CollectedAt(rows: seq<seq<Value>>, i: int)
    requires 0 <= i < |rows| && |rows[i]| > 0
    ensures |Collected(rows[..i])| < |Collected(rows)|
    ensures Collected(rows)[|Collected(rows[..i])|] == Show(rows[i][0])
  {
    assert rows == rows[..i] + ([rows[i]] + rows[i + 1..]);
    CollectedAppend(rows[..i], [rows[i]] + rows[i + 1..]);
    assert ([rows[i]] + rows[i + 1..])[1..] == rows[i + 1..];
  }

  /** Later rows land later: the collected order is the row order. */
  lemma CollectedInRowOrder(rows: seq<seq<Value>>, i: int, j: int)
    requires 0 <= i < j < |rows| && |rows[i]| > 0 && |rows[j]| > 0
    ensures |Collected(rows[..i])| < |Collected(rows[..j])|
  {
    assert rows[..j] == rows[..i] + rows[i..j];
    CollectedAppend(rows[..i], rows[i..j]);
    assert rows[i..j] == [rows[i]] + rows[i + 1..j];
    CollectedAppend([rows[i]], rows[i + 1..j]);
  }

  /** Rows that all lack values give exactly the fixed "no results" text. */
  lemma ExecutionOfEmptyRows(rows: seq<seq<Value>>)
    requires forall i :: 0 <= i < |rows| ==> |rows[i]| == 0
    ensures ExecutionText(Rows(rows)) == "\U{274C} No results found."
  {
    CollectedEmptyIff(rows);
  }

  /** The displayed first value of every non-empty row appears in the execution text. */
  lemma ExecutionShowsEveryRow(rows: seq<seq<Value>>, i: int)
    requires 0 <= i < |rows| && |rows[i]| > 0
    ensures Contains(ExecutionText(Rows(rows)), Show(rows[i][0]))
  {
    CollectedAt(rows, i);
    JoinContainsPart(Collected(rows), "\n", |Collected(rows[..i])|);
  }

  /** A single collected value is shown as it is, with no separator around it. */
  lemma ExecutionOfOneValue(rows: seq<seq<Value>>, v: Value)
    requires forall i :: 0 <= i < |rows| ==> |rows[i]| == 0
    ensures ExecutionText(Rows(rows + [[v]])) == Show(v)
  {
    CollectedEmptyIff(rows);
    CollectedAppend(rows, [[v]]);
  }

  /** The text alone cannot tell "no rows" from a row whose value reads "no results": the
      outcome is textual. */
  lemma NoResultsIsAmbiguous()
    ensures ExecutionText(Rows([[StrVal(NoResults)]])) == ExecutionText(Rows([]))
  {
    assert Collected([[StrVal(NoResults)]]) == [NoResults];
  }
}
