/**
 * The simulated AI service: its own list of added documents, the reply to a
 * question, and the keyword classifiers that choose a language, a code
 * template and a diagram template for a question. The question endpoint is
 * a parameter; the template texts are named, not spelled out.
 */
module AiService {
  import opened Wrappers
  import opened Text
  import opened DocumentList
  import opened ResponseDisplay

  // ------------------------------------------------------------- documents

  /** A document as the service keeps it. */
  datatype ServiceDocument = ServiceDocument(id: string, name: string, content: string)

  /** The placeholder text the service records for a file. */
  function SampleContent(name: string): (c: string)
    ensures StartsWith(c, "Sample content for ") && c[19..] == name
  {
    var c := "Sample content for " + name;
    assert c[..19] == "Sample content for " && c[19..] == name;
    c
  }

  /** Different file names get different placeholder texts. */
  lemma SampleContentInjective(a: string, b: string)
    requires SampleContent(a) == SampleContent(b)
    ensures a == b
  {
    assert SampleContent(a)[19..] == SampleContent(b)[19..];
  }

  const Day: int := 24 * 60 * 60 * 1000
  /** `Math.floor(Math.random() * 1024 * 1024 * 5)` stays below this. */
  const MaxRandomSize: nat := 1024 * 1024 * 5
  /** `Math.floor(Math.random() * 30)` stays below this. */
  const MaxRandomAge: nat := 30

  class AiDocuments {
    var documents: seq<ServiceDocument>

    /** The service starts with no documents. */
    constructor ()
      ensures documents == []
    {
      documents := [];
    }

    /**
     * `addDocument`: exactly one record is pushed, carrying the new id, the
     * file's name and its placeholder content; the id is what the promise
     * resolves to.
     */
    method AddDocument(file: UploadFile, id: string) returns (r: string)
      modifies this
      ensures r == id
      ensures documents == old(documents) + [ServiceDocument(id, file.name, SampleContent(file.name))]
    {
      documents := documents + [ServiceDocument(id, file.name, SampleContent(file.name))];
      r := id;
    }

    /**
     * `getDocuments`: one `Document` per record, in order, with its id and
     * name, a random size under 5 MiB and a date a random whole number of
     * days (under 30) before the clock reading `clock[i]` that element
     * takes. The draws and the readings are parameters.
     */
    method GetDocuments(sizes: seq<nat>, ages: seq<nat>, clock: seq<int>) returns (r: seq<Document>)
      requires |sizes| == |documents| && |ages| == |documents| && |clock| == |documents|
      requires forall i :: 0 <= i < |sizes| ==> sizes[i] < MaxRandomSize
      requires forall i :: 0 <= i < |ages| ==> ages[i] < MaxRandomAge
      ensures |r| == |documents|
      ensures forall i :: 0 <= i < |r| ==> r[i].id == documents[i].id && r[i].name == documents[i].name
      ensures forall i :: 0 <= i < |r| ==> r[i].size == sizes[i] && r[i].uploadedAt == clock[i] - ages[i] * Day
      ensures forall i :: 0 <= i < |r| ==> r[i].size < MaxRandomSize && clock[i] - 29 * Day <= r[i].uploadedAt <= clock[i]
    {
      var docs := documents;
      r := seq(|docs|, i requires 0 <= i < |docs| => Document(docs[i].id, docs[i].name, sizes[i], clock[i] - ages[i] * Day));
    }
  }

  // ---------------------------------------------------------------- replies

  /** What the question endpoint did: answered with a status and, when the body parsed, its `ai_response`; or failed outright. */
  datatype QueryOutcome = Answered(status: int, aiResponse: Option<string>) | NetworkError

  const Apology: string := "I apologize, but I'm having trouble generating a response right now. Please try again later."

  /** `generateTextResponse`: the service's answer on status 200, the apology on any other status or failure. */
  function TextResponse(outcome: QueryOutcome): (r: string)
    ensures outcome.Answered? && outcome.status == 200 && outcome.aiResponse.Some? ==> r == outcome.aiResponse.value
    ensures !(outcome.Answered? && outcome.status == 200 && outcome.aiResponse.Some?) ==> r == Apology
  {
    match outcome
    case Answered(status, reply) =>
      if status == 200 then
        match reply
        case Some(text) => text
        case None => Apology
      else Apology
    case NetworkError => Apology
  }

  /**
   * `processQuestion`: an assistant message holding exactly one text item,
   * the reply to the question; as it has no code or diagram, it adds
   * nothing to the sidebar's tabs.
   */
  function ProcessQuestion(question: string, service: string -> QueryOutcome, id: string, now: int): (m: Message)
    ensures m.role == Assistant && m.id == id && m.timestamp == now
    ensures |m.content| == 1 && m.content[0] == TextItem(TextResponse(service(question)))
    ensures forall messages :: CodeSnippets(messages + [m]) == CodeSnippets(messages) && Diagrams(messages + [m]) == Diagrams(messages)
  {
    var m := Message(id, Assistant, [TextItem(TextResponse(service(question)))], now);
    forall messages ensures CodeSnippets(messages + [m]) == CodeSnippets(messages) && Diagrams(messages + [m]) == Diagrams(messages) {
      TextOnlyAddsNothing(messages, m);
    }
    m
  }

  // ------------------------------------------------------------ classifiers

  /** `keywords.some(keyword => text.includes(keyword))`. */
  function AnyIncluded(text: string, keywords: seq<string>): (b: bool)
    ensures b <==> exists i :: 0 <= i < |keywords| && Contains(text, keywords[i])
  {
    if keywords == [] then false
    else
      var rest := AnyIncluded(text, keywords[1..]);
      assert rest <==> exists i :: 1 <= i < |keywords| && Contains(text, keywords[i]) by {
        if rest {
          var i :| 0 <= i < |keywords| - 1 && Contains(text, keywords[1..][i]);
          assert keywords[i + 1] == keywords[1..][i];
        }
        if exists i :: 1 <= i < |keywords| && Contains(text, keywords[i]) {
          var i :| 1 <= i < |keywords| && Contains(text, keywords[i]);
          assert keywords[1..][i - 1] == keywords[i];
        }
      }
      Contains(text, keywords[0]) || rest
  }

  const CodeKeywords: seq<string> := ["code", "example", "snippet", "how to", "implement", "function", "class", "method"]

  const DiagramKeywords: seq<string> := ["diagram", "flow", "architecture", "system", "process", "structure", "relationship"]

  /** `shouldGenerateCode`: the lower-cased question contains one of the eight code keywords. */
  function ShouldGenerateCode(question: string): (b: bool)
    ensures b <==> exists i :: 0 <= i < |CodeKeywords| && Contains(ToLower(question), CodeKeywords[i])
  {
    AnyIncluded(ToLower(question), CodeKeywords)
  }

  /** `shouldGenerateDiagram`: the lower-cased question contains one of the seven diagram keywords. */
  function ShouldGenerateDiagram(question: string): (b: bool)
    ensures b <==> exists i :: 0 <= i < |DiagramKeywords| && Contains(ToLower(question), DiagramKeywords[i])
  {
    AnyIncluded(ToLower(question), DiagramKeywords)
  }

  /** Case does not matter to the classifiers. */
  lemma ClassifiersIgnoreCase(question: string)
    ensures ShouldGenerateCode(ToLower(question)) == ShouldGenerateCode(question)
    ensures ShouldGenerateDiagram(ToLower(question)) == ShouldGenerateDiagram(question)
    ensures DetermineLanguage(ToLower(question)) == DetermineLanguage(question)
  {
    ToLowerIdempotent(question);
  }

  /** The languages `determineLanguage` can answer. */
  const Languages: set<string> := {"javascript", "typescript", "python", "java", "csharp"}

  /** `determineLanguage`: the first test that matches the lower-cased question decides; javascript by default. */
  function DetermineLanguage(question: string): (language: string)
    ensures language in Languages
  {
    var q := ToLower(question);
    if Contains(q, "javascript") || Contains(q, "js") then "javascript"
    else if Contains(q, "typescript") || Contains(q, "ts") then "typescript"
    else if Contains(q, "python") || Contains(q, "py") then "python"
    else if Contains(q, "java") then "java"
    else if Contains(q, "c#") || Contains(q, "csharp") then "csharp"
    else "javascript"
  }

  /** A test of the language chain: its keywords and the language it answers. */
  datatype Rule = Rule(keywords: seq<string>, language: string)

  const LanguageRules: seq<Rule> := [
    Rule(["javascript", "js"], "javascript"),
    Rule(["typescript", "ts"], "typescript"),
    Rule(["python", "py"], "python"),
    Rule(["java"], "java"),
    Rule(["c#", "csharp"], "csharp")
  ]

  /** The language of the first rule whose keywords the text contains, or the default. */
  function FirstMatch(rules: seq<Rule>, text: string, default: string): (language: string)
    ensures forall i :: 0 <= i < |rules| ==>
              (AnyIncluded(text, rules[i].keywords) && forall j :: 0 <= j < i ==> !AnyIncluded(text, rules[j].keywords)) ==>
              language == rules[i].language
    ensures (forall i :: 0 <= i < |rules| ==> !AnyIncluded(text, rules[i].keywords)) ==> language == default
  {
    if rules == [] then default
    else if AnyIncluded(text, rules[0].keywords) then rules[0].language
    else
      var r := FirstMatch(rules[1..], text, default);
      assert forall i :: 1 <= i < |rules| ==> rules[1..][i - 1] == rules[i];
      r
  }

  // The language rules from the second, third, fourth and fifth on.
  const Rules1: seq<Rule> := LanguageRules[1..]
  const Rules2: seq<Rule> := LanguageRules[2..]
  const Rules3: seq<Rule> := LanguageRules[3..]
  const Rules4: seq<Rule> := LanguageRules[4..]

  lemma FirstMatchFrom4(q: string)
    ensures FirstMatch(Rules4, q, "javascript") == if Contains(q, "c#") || Contains(q, "csharp") then "csharp" else "javascript"
  {
    assert Rules4 == [Rule(["c#", "csharp"], "csharp")] + [];
    FirstMatchCons(Rule(["c#", "csharp"], "csharp"), [], q, "javascript");
    AnyIncludedPair(q, "c#", "csharp");
  }

  lemma FirstMatchFrom3(q: string)
    ensures FirstMatch(Rules3, q, "javascript") == if Contains(q, "java") then "java" else FirstMatch(Rules4, q, "javascript")
  {
    assert Rules3 == [Rule(["java"], "java")] + Rules4;
    FirstMatchCons(Rule(["java"], "java"), Rules4, q, "javascript");
    assert ["java"][1..] == [];
  }

  lemma FirstMatchFrom2(q: string)
    ensures FirstMatch(Rules2, q, "javascript") ==
      if Contains(q, "python") || Contains(q, "py") then "python" else FirstMatch(Rules3, q, "javascript")
  {
    assert Rules2 == [Rule(["python", "py"], "python")] + Rules3;
    FirstMatchCons(Rule(["python", "py"], "python"), Rules3, q, "javascript");
    AnyIncludedPair(q, "python", "py");
  }

  lemma FirstMatchFrom1(q: string)
    ensures FirstMatch(Rules1, q, "javascript") ==
      if Contains(q, "typescript") || Contains(q, "ts") then "typescript" else FirstMatch(Rules2, q, "javascript")
  {
    assert Rules1 == [Rule(["typescript", "ts"], "typescript")] + Rules2;
    FirstMatchCons(Rule(["typescript", "ts"], "typescript"), Rules2, q, "javascript");
    AnyIncludedPair(q, "typescript", "ts");
  }

  lemma FirstMatchFrom0(q: string)
    ensures FirstMatch(LanguageRules, q, "javascript") ==
      if Contains(q, "javascript") || Contains(q, "js") then "javascript" else FirstMatch(Rules1, q, "javascript")
  {
    assert LanguageRules == [Rule(["javascript", "js"], "javascript")] + Rules1;
    FirstMatchCons(Rule(["javascript", "js"], "javascript"), Rules1, q, "javascript");
    AnyIncludedPair(q, "javascript", "js");
  }

  /**
   * The if/else chain is the first-match rule over its five tests: an
   * earlier language wins over a later one, whatever else the question
   * mentions.
   */
  lemma DetermineLanguageIsFirstMatch(question: string)
    ensures DetermineLanguage(question) == FirstMatch(LanguageRules, ToLower(question), "javascript")
  {
    var q := ToLower(question);
    FirstMatchFrom0(q);
    FirstMatchFrom1(q);
    FirstMatchFrom2(q);
    FirstMatchFrom3(q);
    FirstMatchFrom4(q);
  }

  /** One step of the first-match rule. */
  lemma FirstMatchCons(rule: Rule, rest: seq<Rule>, text: string, default: string)
    ensures FirstMatch([rule] + rest, text, default) ==
      if AnyIncluded(text, rule.keywords) then rule.language else FirstMatch(rest, text, default)
  {
    assert ([rule] + rest)[1..] == rest;
  }

  lemma AnyIncludedPair(text: string, a: string, b: string)
    ensures AnyIncluded(text, [a, b]) == (Contains(text, a) || Contains(text, b))
  {
    assert [a, b][1..] == [b] && [b][1..] == [];
  }

  /** A question mentioning "js" gets javascript, even when it names another language too. */
  lemma JsAlwaysWins(question: string)
    requires Contains(ToLower(question), "js")
    ensures DetermineLanguage(question) == "javascript"
  {
  }

  /** The five code templates, one per language; their text is not part of this model. */
  datatype CodeTemplate = JavaScriptLogin | TypeScriptLogin | PythonLogin | JavaLogin | CSharpLogin

  /** The `snippets` record of `generateCodeSnippet`. */
  const Snippets: map<string, CodeTemplate> := map[
    "javascript" := JavaScriptLogin,
    "typescript" := TypeScriptLogin,
    "python" := PythonLogin,
    "java" := JavaLogin,
    "csharp" := CSharpLogin
  ]

  /** `snippets[language] || snippets.javascript`. */
  function GenerateCodeSnippet(question: string): (t: CodeTemplate)
    ensures DetermineLanguage(question) in Snippets && t == Snippets[DetermineLanguage(question)]
  {
    var language := DetermineLanguage(question);
    if language in Snippets then Snippets[language] else JavaScriptLogin // snippets.javascript
  }

  /** Every language the chain answers has a template, so the javascript fallback never fires. */
  lemma FallbackNeverNeeded(question: string)
    ensures DetermineLanguage(question) in Snippets
  {
    assert Languages == Snippets.Keys;
  }

  /** The three diagram templates; their SVG text is not part of this model. */
  datatype DiagramTemplate = AuthenticationFlow | SystemArchitecture | GenericProcess

  /** `generateDiagram`: authentication first, then architecture, then the generic flow. */
  function GenerateDiagram(question: string): (d: DiagramTemplate)
    ensures var q := ToLower(question);
      (d == AuthenticationFlow <==> Contains(q, "authentication") || Contains(q, "login")) &&
      (d == SystemArchitecture <==> !(Contains(q, "authentication") || Contains(q, "login")) &&
                                    (Contains(q, "architecture") || Contains(q, "system"))) &&
      (d == GenericProcess <==> !(Contains(q, "authentication") || Contains(q, "login") ||
                                  Contains(q, "architecture") || Contains(q, "system")))
  {
    var q := ToLower(question);
    if Contains(q, "authentication") || Contains(q, "login") then AuthenticationFlow
    else if Contains(q, "architecture") || Contains(q, "system") then SystemArchitecture
    else GenericProcess
  }

  /** Every question choosing the architecture diagram would also ask for a diagram. */
  lemma ArchitectureImpliesDiagram(question: string)
    requires GenerateDiagram(question) == SystemArchitecture
    ensures ShouldGenerateDiagram(question)
  {
    var q := ToLower(question);
    if Contains(q, "architecture") {
      assert DiagramKeywords[2] == "architecture";
    } else {
      assert DiagramKeywords[3] == "system";
    }
  }
}
