/**
 * The conversation view: the message and response-item types the chat
 * exchanges, the sidebar lists derived from a transcript (every code
 * snippet, every diagram), the labels the sidebar shows, and its open/closed
 * switch.
 */
module ResponseDisplay {
  import opened Wrappers
  import opened Text
  import Seqs

  /** One part of a message: prose, a code snippet in a language, an SVG diagram or a PlantUML diagram. */
  datatype ResponseItem =
    | TextItem(content: string)
    | CodeItem(content: string, language: string)
    | DiagramItem(content: string, title: Option<string>)
    | PlantUmlItem(content: string, title: Option<string>)

  datatype Role = User | Assistant

  /** A message of the transcript; `timestamp` is a millisecond clock reading. */
  datatype Message = Message(id: string, role: Role, content: seq<ResponseItem>, timestamp: int)

  predicate IsCode(item: ResponseItem) { item.CodeItem? }

  predicate IsDiagram(item: ResponseItem) { item.DiagramItem? || item.PlantUmlItem? }

  // ---------------------------------------------------------- derived lists

  /** `messages.flatMap(message => message.content.filter(p))`. */
  function Gather(messages: seq<Message>, p: ResponseItem -> bool): (r: seq<ResponseItem>)
    ensures forall i :: 0 <= i < |r| ==> p(r[i])
    ensures forall x :: x in r <==> p(x) && exists m :: m in messages && x in m.content
  {
    if messages == [] then []
    else
      var head := Seqs.Filter(messages[0].content, p);
      var rest := Gather(messages[1..], p);
      assert forall i :: 0 <= i < |head| ==> p(head[i]) by {
        forall i | 0 <= i < |head| ensures p(head[i]) { assert head[i] in head; }
      }
      assert forall m :: m in messages <==> m == messages[0] || m in messages[1..];
      head + rest
  }

  /** The list for a longer transcript continues the list for its beginning. */
  lemma {:induction false} GatherAppend(a: seq<Message>, b: seq<Message>, p: ResponseItem -> bool)
    ensures Gather(a + b, p) == Gather(a, p) + Gather(b, p)
  {
    if a == [] {
      assert a + b == b;
    } else {
      assert (a + b)[1..] == a[1..] + b;
      GatherAppend(a[1..], b, p);
    }
  }

  /** One more message adds exactly its own matching items, in their order, at the end. */
  lemma GatherSnoc(messages: seq<Message>, m: Message, p: ResponseItem -> bool)
    ensures Gather(messages + [m], p) == Gather(messages, p) + Seqs.Filter(m.content, p)
  {
    GatherAppend(messages, [m], p);
    assert Gather([m], p) == Seqs.Filter(m.content, p) + Gather([], p);
  }

  /** The Code tab: every code item of the transcript, message by message. */
  function CodeSnippets(messages: seq<Message>): (r: seq<ResponseItem>)
    ensures forall i :: 0 <= i < |r| ==> r[i].CodeItem?
    ensures forall x :: x in r <==> x.CodeItem? && exists m :: m in messages && x in m.content
  {
    Gather(messages, IsCode)
  }

  /** The Diagrams tab: every SVG and PlantUML diagram of the transcript, message by message. */
  function Diagrams(messages: seq<Message>): (r: seq<ResponseItem>)
    ensures forall i :: 0 <= i < |r| ==> r[i].DiagramItem? || r[i].PlantUmlItem?
    ensures forall x :: x in r <==> (x.DiagramItem? || x.PlantUmlItem?) && exists m :: m in messages && x in m.content
  {
    Gather(messages, IsDiagram)
  }

  /** A message of text items only adds nothing to either tab. */
  lemma TextOnlyAddsNothing(messages: seq<Message>, m: Message)
    requires forall i :: 0 <= i < |m.content| ==> m.content[i].TextItem?
    ensures CodeSnippets(messages + [m]) == CodeSnippets(messages)
    ensures Diagrams(messages + [m]) == Diagrams(messages)
  {
    GatherSnoc(messages, m, IsCode);
    GatherSnoc(messages, m, IsDiagram);
    Seqs.FilterKeepsNone(m.content, IsCode);
    Seqs.FilterKeepsNone(m.content, IsDiagram);
  }

  // ------------------------------------------------------------------ labels

  const PreviewLength: nat := 30

  /**
   * The chat-history entry of a user message: the first 30 characters of its
   * first item when that is text, followed by "..." exactly when the text
   * is longer; "User message" when the first item is not text or there is
   * none.
   */
  function UserPreview(content: seq<ResponseItem>): (r: string)
    ensures (content == [] || !content[0].TextItem?) ==> r == "User message"
    ensures content != [] && content[0].TextItem? && |content[0].content| <= PreviewLength ==> r == content[0].content
    ensures content != [] && content[0].TextItem? && |content[0].content| > PreviewLength ==>
      |r| == PreviewLength + 3 && r[..PreviewLength] == content[0].content[..PreviewLength] && EndsWith(r, "...")
  {
    if content != [] && content[0].TextItem? then
      var text := content[0].content;
      var shown := if |text| <= PreviewLength then text else text[..PreviewLength];
      var r := shown + (if |text| > PreviewLength then "..." else "");
      assert |text| > PreviewLength ==> r[..PreviewLength] == shown && r[PreviewLength..] == "...";
      r
    else "User message"
  }

  /** A text preview is never longer than 33 characters and always starts the text it shows. */
  lemma UserPreviewBounded(content: seq<ResponseItem>)
    requires content != [] && content[0].TextItem?
    ensures |UserPreview(content)| <= PreviewLength + 3
    ensures StartsWith(content[0].content, UserPreview(content)) || EndsWith(UserPreview(content), "...")
  {
  }

  /** The chat-history entry of an assistant message: its item count and "response", plural unless the count is one. */
  function ResponseCountLabel(n: nat): (r: string)
    ensures StartsWith(r, NatToString(n) + " response")
    ensures r[|r| - 1] == 's' <==> n != 1
  {
    var head := NatToString(n) + " response";
    var r := head + (if n != 1 then "s" else "");
    assert r[..|head|] == head;
    r
  }

  /**
   * The chat-history entry of any message: a preview of at most 33
   * characters for the user's, the item count for the assistant's.
   */
  function HistoryEntry(m: Message): (r: string)
    ensures m.role == User ==> |r| <= PreviewLength + 3
    ensures m.role == User && m.content != [] && m.content[0].TextItem? ==>
      StartsWith(m.content[0].content, r) || EndsWith(r, "...")
    ensures m.role != User ==> StartsWith(r, NatToString(|m.content|) + " response")
    ensures m.role != User ==> (r[|r| - 1] == 's' <==> |m.content| != 1)
  {
    if m.role == User then UserPreview(m.content) else ResponseCountLabel(|m.content|)
  }

  /** The Code tab entry for the snippet at `index`: its language, "snippet", and the position counted from one. */
  function SnippetLabel(language: string, index: nat): (r: string)
    ensures StartsWith(r, language + " snippet ")
    ensures |r| > |language| + 9 && r[|language| + 9..] == NatToString(index + 1)
  {
    var head := language + " snippet ";
    var r := head + NatToString(index + 1);
    assert r[..|head|] == head && r[|head|..] == NatToString(index + 1);
    r
  }

  /** Two snippets in the same language at different positions get different labels. */
  lemma SnippetLabelsDistinct(language: string, i: nat, j: nat)
    requires i != j
    ensures SnippetLabel(language, i) != SnippetLabel(language, j)
  {
    NatToStringRoundTrip(i + 1);
    NatToStringRoundTrip(j + 1);
  }

  /** The Diagrams tab entry: the diagram's title when it has a non-empty one, otherwise "Diagram" and its position counted from one. */
  function DiagramLabel(title: Option<string>, index: nat): (r: string)
    ensures title.Some? && title.value != "" ==> r == title.value
    ensures (title.None? || title.value == "") ==> StartsWith(r, "Diagram ") && |r| > 8 && r[8..] == NatToString(index + 1)
  {
    if title.Some? && title.value != "" then title.value
    else
      var r := "Diagram " + NatToString(index + 1);
      assert r[..8] == "Diagram " && r[8..] == NatToString(index + 1);
      r
  }

  /** Two untitled diagrams at different positions get different labels. */
  lemma UntitledLabelsDistinct(i: nat, j: nat)
    requires i != j
    ensures DiagramLabel(None, i) != DiagramLabel(None, j)
  {
    NatToStringRoundTrip(i + 1);
    NatToStringRoundTrip(j + 1);
  }

  // ------------------------------------------------------------------ sidebar

  /** The sidebar's open/closed state. */
  class Sidebar {
    var open: bool

    /** The sidebar starts open. */
    constructor ()
      ensures open
    {
      open := true;
    }

    /** `toggleSidebar`: flips the state. */
    method Toggle()
      modifies this
      ensures open == !old(open)
    {
      open := !open;
    }

    /** Toggling twice restores the state. */
    method ToggleTwice()
      modifies this
      ensures open == old(open)
    {
      Toggle();
      Toggle();
    }
  }
}
