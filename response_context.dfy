/** `_prepare_full_context` in `src/utils/response_generator.py`: the knowledge-base
    and dialog-history sections of the answer prompt. Relevance scores are an abstract
    integer key; their two-decimal rendering is supplied with each document as
    `scoreLabel`. */
module ResponseContext {
  import opened Wrappers
  import opened Strings
  import StableSort

  /** A document's `content` entry: a string, another value, or no entry at all. */
  datatype Content = Text(s: string) | NonText | NoContent

  datatype Document = Document(score: int, scoreLabel: string, content: Content)

  /** An entry's `bot_response`: a mapping (with its `text`, if any), a string, or
      anything else (including absent). */
  datatype BotResponse = ResponseDict(text: Option<string>) | ResponseText(s: string) | ResponseOther

  /** A dialog-history entry: a mapping with an optional `message`, or something else. */
  datatype HistoryEntry = Entry(message: Option<string>, botResponse: BotResponse) | NotAMapping

  /** The failures `_prepare_full_context` reports as a generation error. */
  datatype ContextError = MissingContent | MalformedEntry

  const NoKnowledge := "No relevant information found in the knowledge base."
  const NoDialog := "No previous dialog history."
  const TextMarker := "Text:"
  const ReplyMarker := "Reply_To_Message_ID:"

  /** Sorting with `reverse=True` is a stable ascending sort on the negated score. */
  function NegScore(d: Document): int {
    -d.score
  }

  /** The text a document contributes: the stripped text between the first "Text:"
      and the next "Text:" or "Reply_To_Message_ID:", or the whole content. */
  function ExtractText(content: string): (r: string)
    ensures !Contains(content, TextMarker) ==> r == content
    ensures Contains(content, TextMarker) ==> r == Strip(r) && |r| <= |content|
  {
    if Contains(content, TextMarker) then
      StripIdempotent(BeforeFirst(BeforeFirst(AfterFirst(content, TextMarker), TextMarker), ReplyMarker));
      Strip(BeforeFirst(BeforeFirst(AfterFirst(content, TextMarker), TextMarker), ReplyMarker))
    else content
  }

  function DocumentLine(scoreLabel: string, text: string): string {
    "Document (relevance " + scoreLabel + "): " + ExtractText(text)
  }

  /** The context parts of `docs` in order: one per string content, none for other
      contents, and an error at the first document without content. */
  function ContextParts(docs: seq<Document>): (r: Result<seq<string>, ContextError>)
    ensures r.Success? ==> forall k :: 0 <= k < |r.value| ==> StartsWith(r.value[k], "Document (relevance ")
    decreases |docs|
  {
    if docs == [] then Success([])
    else
      var last := docs[|docs| - 1];
      match ContextParts(docs[..|docs| - 1])
      case Failure(e) => Failure(e)
      case Success(parts) =>
        match last.content
        case Text(s) =>
          PrefixStartsWith("Document (relevance ", last.scoreLabel + "): " + ExtractText(s));
          assert DocumentLine(last.scoreLabel, s) == "Document (relevance " + (last.scoreLabel + "): " + ExtractText(s));
          Success(parts + [DocumentLine(last.scoreLabel, s)])
        case NonText => Success(parts)
        case NoContent => Failure(MissingContent)
  }

  function ResponseLine(r: BotResponse): string {
    match r
    case ResponseDict(text) => if text.Some? then text.value else ""
    case ResponseText(s) => s
    case ResponseOther => ""
  }

  /** The lines one history entry contributes. */
  function EntryLines(e: HistoryEntry): Result<seq<string>, ContextError> {
    match e
    case NotAMapping => Failure(MalformedEntry)
    case Entry(message, response) =>
      var bot := ResponseLine(response);
      var botLines := if bot != "" then ["Assistant: " + bot] else [];
      Success(if message.Some? && message.value != "" then ["User: " + message.value] + botLines else botLines)
  }

  function HistoryParts(entries: seq<HistoryEntry>): Result<seq<string>, ContextError>
    decreases |entries|
  {
    if entries == [] then Success([])
    else
      match HistoryParts(entries[..|entries| - 1])
      case Failure(e) => Failure(e)
      case Success(parts) =>
        match EntryLines(entries[|entries| - 1])
        case Failure(e) => Failure(e)
        case Success(lines) => Success(parts + lines)
  }

  /** The knowledge-base section for documents already in score order. */
  function RagSection(sorted: seq<Document>): Result<string, ContextError> {
    match ContextParts(sorted)
    case Failure(e) => Failure(e)
    case Success(parts) => Success(if parts == [] then NoKnowledge else Join(parts, "\n\n"))
  }

  /** The dialog-history section. */
  function DialogSection(history: seq<HistoryEntry>): Result<string, ContextError> {
    match HistoryParts(history)
    case Failure(e) => Failure(e)
    case Success(lines) => Success(if lines == [] then NoDialog else Join(lines, "\n"))
  }

  /** Both sections; a document without content is reported before a bad history entry. */
  function Sections(sorted: seq<Document>, history: seq<HistoryEntry>): Result<(string, string), ContextError> {
    match RagSection(sorted)
    case Failure(e) => Failure(e)
    case Success(rag) =>
      match DialogSection(history)
      case Failure(e) => Failure(e)
      case Success(dialog) => Success((rag, dialog))
  }

  /** The documents as `_prepare_full_context` leaves them. */
  function SortedDocuments(docs: seq<Document>): seq<Document> {
    if docs == [] then docs else StableSort.Sort(docs, NegScore)
  }

  /** The caller's document list, which the preparation reorders in place. */
  class DocumentList {
    var items: seq<Document>

    constructor(items: seq<Document>)
      ensures this.items == items
    {
      this.items := items;
    }
  }

  lemma {:induction false} ContextPartsFailurePersists(docs: seq<Document>, i: nat)
    requires i <= |docs| && ContextParts(docs[..i]).Failure?
    ensures ContextParts(docs) == ContextParts(docs[..i])
    decreases |docs| - i
  {
    if i < |docs| {
      assert docs[..i + 1][..i] == docs[..i];
      ContextPartsFailurePersists(docs, i + 1);
    } else {
      assert docs[..i] == docs;
    }
  }

  lemma {:induction false} HistoryPartsFailurePersists(entries: seq<HistoryEntry>, i: nat)
    requires i <= |entries| && HistoryParts(entries[..i]).Failure?
    ensures HistoryParts(entries) == HistoryParts(entries[..i])
    decreases |entries| - i
  {
    if i < |entries| {
      assert entries[..i + 1][..i] == entries[..i];
      HistoryPartsFailurePersists(entries, i + 1);
    } else {
      assert entries[..i] == entries;
    }
  }

  /** The loop over the sorted documents. */
  method BuildRagContext(items: seq<Document>) returns (r: Result<string, ContextError>)
    ensures r == RagSection(items)
  {
    var parts: seq<string> := [];
    var i := 0;
    while i < |items|
      invariant 0 <= i <= |items|
      invariant ContextParts(items[..i]) == Success(parts)
    {
      assert items[..i + 1][..i] == items[..i];
      match items[i].content {
        case Text(s) =>
          var text := if Contains(s, TextMarker) then Strip(BeforeFirst(BeforeFirst(AfterFirst(s, TextMarker), TextMarker), ReplyMarker)) else s;
          parts := parts + ["Document (relevance " + items[i].scoreLabel + "): " + text];
        case NonText =>
        case NoContent =>
          ContextPartsFailurePersists(items, i + 1);
          return Failure(MissingContent);
      }
      i := i + 1;
    }
    assert items[..i] == items;
    if parts == [] {
      return Success(NoKnowledge);
    }
    return Success(Join(parts, "\n\n"));
  }

  /** The loop over the dialog history. */
  method BuildDialogHistory(history: seq<HistoryEntry>) returns (r: Result<string, ContextError>)
    ensures r == DialogSection(history)
  {
    var lines: seq<string> := [];
    var j := 0;
    while j < |history|
      invariant 0 <= j <= |history|
      invariant HistoryParts(history[..j]) == Success(lines)
    {
      assert history[..j + 1][..j] == history[..j];
      match history[j] {
        case NotAMapping =>
          HistoryPartsFailurePersists(history, j + 1);
          return Failure(MalformedEntry);
        case Entry(message, response) =>
          var userMessage := if message.Some? then message.value else "";
          var botMessage := match response
            case ResponseDict(text) => (if text.Some? then text.value else "")
            case ResponseText(s) => s
            case ResponseOther => "";
          var entryLines: seq<string> := [];
          if userMessage != "" {
            entryLines := ["User: " + userMessage];
          }
          if botMessage != "" {
            entryLines := entryLines + ["Assistant: " + botMessage];
          }
          assert botMessage == ResponseLine(response);
          assert EntryLines(history[j]).value == entryLines;
          lines := lines + entryLines;
      }
      j := j + 1;
    }
    assert history[..j] == history;
    if lines == [] {
      return Success(NoDialog);
    }
    return Success(Join(lines, "\n"));
  }

  /** `_prepare_full_context`: sorts the caller's documents in place by descending
      score, then builds both sections. */
  method PrepareFullContext(docs: DocumentList, history: seq<HistoryEntry>)
    returns (r: Result<(string, string), ContextError>)
    modifies docs
    ensures docs.items == SortedDocuments(old(docs.items))
    ensures r == Sections(docs.items, history)
  {
    if docs.items != [] {
      docs.items := StableSort.Sort(docs.items, NegScore);
    }
    var rag := BuildRagContext(docs.items);
    if rag.Failure? {
      return Failure(rag.error);
    }
    var dialog := BuildDialogHistory(history);
    if dialog.Failure? {
      return Failure(dialog.error);
    }
    return Success((rag.value, dialog.value));
  }

  // ---------------------------------------------------------------------------
  // Properties

  /** After preparation the documents are in descending score order, are the same
      documents, and documents with equal scores keep their original order. */
  lemma DocumentsReordered(docs: seq<Document>)
    ensures var s := SortedDocuments(docs);
      && (forall i, j :: 0 <= i < j < |s| ==> s[i].score >= s[j].score)
      && multiset(s) == multiset(docs)
      && forall k :: StableSort.WithKey(s, NegScore, k) == StableSort.WithKey(docs, NegScore, k)
  {
    if docs != [] {
      var s := StableSort.Sort(docs, NegScore);
      StableSort.SortSortedPermutation(docs, NegScore);
      forall i, j | 0 <= i < j < |s| ensures s[i].score >= s[j].score {
        assert NegScore(s[i]) <= NegScore(s[j]);
      }
      forall k ensures StableSort.WithKey(s, NegScore, k) == StableSort.WithKey(docs, NegScore, k) {
        StableSort.SortStable(docs, NegScore, k);
      }
    }
  }

  /** Neither marker's last character occurs earlier in it. */
  lemma MarkersEndUniquely()
    ensures forall k :: 0 <= k < |TextMarker| - 1 ==> TextMarker[k] != TextMarker[|TextMarker| - 1]
    ensures forall k :: 0 <= k < |ReplyMarker| - 1 ==> ReplyMarker[k] != ReplyMarker[|ReplyMarker| - 1]
  {
  }

  /** An occurrence in a suffix is an occurrence in the whole, shifted. */
  lemma OccursInSuffix(s: string, pattern: string, i: nat, k: nat)
    requires i <= k && i <= |s|
    ensures OccursAt(s[i..], pattern, k - i) <==> OccursAt(s, pattern, k)
  {
    if k + |pattern| <= |s| {
      assert s[i..][k - i..k - i + |pattern|] == s[k..k + |pattern|];
    }
  }

  /** An occurrence in a prefix is an occurrence in the whole that ends inside it. */
  lemma OccursInPrefix(s: string, pattern: string, n: nat, k: nat)
    requires n <= |s|
    ensures OccursAt(s[..n], pattern, k) <==> k + |pattern| <= n && OccursAt(s, pattern, k)
  {
    if k + |pattern| <= n {
      assert s[..n][k..k + |pattern|] == s[k..k + |pattern|];
    }
  }

  /** No character of "Reply_To_Message_ID:" is a "T" followed by an "e". */
  lemma ReplyMarkerHasNoTe()
    ensures forall d :: 0 <= d < |ReplyMarker| ==> ReplyMarker[d] != 'T' || (d + 1 < |ReplyMarker| && ReplyMarker[d + 1] != 'e')
  {
  }

  /** So no "Reply_To_Message_ID:" that starts before a "Text:" can reach into it. */
  lemma ReplyMarkerStopsBeforeText(s: string, k: nat, t: nat)
    requires k < t
    requires OccursAt(s, ReplyMarker, k) && OccursAt(s, TextMarker, t)
    ensures k + |ReplyMarker| <= t
  {
    ReplyMarkerHasNoTe();
    assert s[t] == 'T' && s[t + 1] == 'e' by {
      assert s[t..t + |TextMarker|] == TextMarker;
    }
    assert forall x :: k <= x < k + |ReplyMarker| ==> s[x] == ReplyMarker[x - k] by {
      assert s[k..k + |ReplyMarker|] == ReplyMarker;
    }
  }

  lemma SliceOfSlices(s: string, i: nat, q: nat, m: nat)
    requires i + q <= |s| && m <= q
    ensures s[i..][..q][..m] == s[i..i + m]
  {
  }

  /** Inside the first piece of `content[i..]` cut at "Text:" (length `q`), and before
      the first "Reply_To_Message_ID:" in it (at `m`), neither marker starts. */
  lemma NoMarkerInBody(content: string, i: nat, q: nat, m: nat)
    requires i + q <= |content| && m <= q
    requires IndexOf(content[i..], TextMarker) == if i + q < |content| then Some(q) else None
    requires IndexOf(content[i..][..q], ReplyMarker) == if m < q then Some(m) else None
    ensures forall k :: i <= k < i + m ==> !OccursAt(content, TextMarker, k) && !OccursAt(content, ReplyMarker, k)
  {
    var a := content[i..];
    forall k | i <= k < i + m ensures !OccursAt(content, TextMarker, k) && !OccursAt(content, ReplyMarker, k) {
      OccursInSuffix(content, TextMarker, i, k);
      OccursInSuffix(content, ReplyMarker, i, k);
      OccursInPrefix(a, ReplyMarker, q, k - i);
      if i + q < |content| {
        OccursInSuffix(content, TextMarker, i, i + q);
        if OccursAt(content, ReplyMarker, k) {
          ReplyMarkerStopsBeforeText(content, k, i + q);
        }
      }
    }
  }

  /** The cut ends at the end of the content or where a marker starts. */
  lemma CutAtMarker(content: string, i: nat, q: nat, m: nat)
    requires i + q <= |content| && m <= q
    requires IndexOf(content[i..], TextMarker) == if i + q < |content| then Some(q) else None
    requires IndexOf(content[i..][..q], ReplyMarker) == if m < q then Some(m) else None
    ensures i + m == |content| || OccursAt(content, TextMarker, i + m) || OccursAt(content, ReplyMarker, i + m)
  {
    if m < q {
      OccursInPrefix(content[i..], ReplyMarker, q, m);
      OccursInSuffix(content, ReplyMarker, i, i + m);
    } else if i + q < |content| {
      OccursInSuffix(content, TextMarker, i, i + m);
    }
  }

  /** Where the body `ExtractText` keeps starts: just after the first "Text:". */
  function BodyStart(content: string): nat
    requires Contains(content, TextMarker)
  {
    IndexOf(content, TextMarker).value + |TextMarker|
  }

  /** Where that body ends: at the next "Text:" (or the end), or earlier at the first
      "Reply_To_Message_ID:" before it. */
  function BodyEnd(content: string): (e: nat)
    requires Contains(content, TextMarker)
    ensures BodyStart(content) <= e <= |content|
  {
    var i := BodyStart(content);
    var a := content[i..];
    var q := if IndexOf(a, TextMarker).Some? then IndexOf(a, TextMarker).value else |a|;
    var b := a[..q];
    i + (if IndexOf(b, ReplyMarker).Some? then IndexOf(b, ReplyMarker).value else |b|)
  }

  /** The extract is the stripped body. */
  lemma ExtractBody(content: string)
    requires Contains(content, TextMarker)
    ensures ExtractText(content) == Strip(content[BodyStart(content)..BodyEnd(content)])
  {
    var i := BodyStart(content);
    var a := content[i..];
    var q := if IndexOf(a, TextMarker).Some? then IndexOf(a, TextMarker).value else |a|;
    var b := a[..q];
    var m := BodyEnd(content) - i;
    assert AfterFirst(content, TextMarker) == a;
    assert BeforeFirst(a, TextMarker) == b;
    assert BeforeFirst(b, ReplyMarker) == b[..m];
    SliceOfSlices(content, i, q, m);
  }

  /** The two cuts of the body, as positions in the content after its start. */
  lemma BodyCuts(content: string) returns (q: nat, m: nat)
    requires Contains(content, TextMarker)
    ensures var i := BodyStart(content);
      && i + q <= |content| && m <= q && BodyEnd(content) == i + m
      && IndexOf(content[i..], TextMarker) == (if i + q < |content| then Some(q) else None)
      && IndexOf(content[i..][..q], ReplyMarker) == (if m < q then Some(m) else None)
  {
    var i := BodyStart(content);
    var a := content[i..];
    q := if IndexOf(a, TextMarker).Some? then IndexOf(a, TextMarker).value else |a|;
    m := BodyEnd(content) - i;
  }

  /** No marker starts inside the body, and the body ends at the end of the content
      or where a marker starts. */
  lemma BodyBounded(content: string)
    requires Contains(content, TextMarker)
    ensures forall k :: BodyStart(content) <= k < BodyEnd(content) ==>
      !OccursAt(content, TextMarker, k) && !OccursAt(content, ReplyMarker, k)
    ensures var e := BodyEnd(content);
      e == |content| || OccursAt(content, TextMarker, e) || OccursAt(content, ReplyMarker, e)
  {
    var q, m := BodyCuts(content);
    NoMarkerInBody(content, BodyStart(content), q, m);
    CutAtMarker(content, BodyStart(content), q, m);
  }

  /** Any end with those two properties is the body's end. */
  lemma BodyEndUnique(content: string, j: nat)
    requires Contains(content, TextMarker)
    requires BodyStart(content) <= j <= |content|
    requires forall k :: BodyStart(content) <= k < j ==> !OccursAt(content, TextMarker, k) && !OccursAt(content, ReplyMarker, k)
    requires j == |content| || OccursAt(content, TextMarker, j) || OccursAt(content, ReplyMarker, j)
    ensures j == BodyEnd(content)
  {
    BodyBounded(content);
  }

  /** With "Text:" present, the extract is the stripped slice from just after its
      first occurrence to the first later position `j` where either marker starts,
      or to the end of the content. */
  lemma ExtractTextMarked(content: string, j: nat)
    requires Contains(content, TextMarker)
    requires IndexOf(content, TextMarker).value + |TextMarker| <= j <= |content|
    requires forall k :: IndexOf(content, TextMarker).value + |TextMarker| <= k < j ==>
      !OccursAt(content, TextMarker, k) && !OccursAt(content, ReplyMarker, k)
    requires j == |content| || OccursAt(content, TextMarker, j) || OccursAt(content, ReplyMarker, j)
    ensures ExtractText(content) == Strip(content[IndexOf(content, TextMarker).value + |TextMarker|..j])
  {
    BodyEndUnique(content, j);
    ExtractBody(content);
  }

  /** A record in the exported-chat format contributes exactly its stripped text body. */
  lemma ExtractTextOfRecord(before: string, body: string, after: string)
    requires !Contains(before, TextMarker)
    requires !Contains(body, ReplyMarker)
    requires !Contains(body + ReplyMarker + after, TextMarker)
    ensures ExtractText(before + TextMarker + body + ReplyMarker + after) == Strip(body)
  {
    var rest := body + ReplyMarker + after;
    var s := before + TextMarker + rest;
    assert before + TextMarker + body + ReplyMarker + after == s;
    MarkersEndUniquely();
    FirstOccurrence(before, TextMarker, rest);
    assert AfterFirst(s, TextMarker) == rest;
    BeforeFirstAbsent(rest, TextMarker);
    FirstOccurrence(body, ReplyMarker, after);
    assert BeforeFirst(rest, ReplyMarker) == body;
  }

  lemma {:induction false} ContextPartsCount(docs: seq<Document>)
    requires forall i :: 0 <= i < |docs| ==> !docs[i].content.NoContent?
    ensures ContextParts(docs).Success?
    ensures ContextParts(docs).value == [] <==> forall i :: 0 <= i < |docs| ==> docs[i].content.NonText?
    decreases |docs|
  {
    if docs != [] {
      var init := docs[..|docs| - 1];
      assert forall i :: 0 <= i < |init| ==> init[i] == docs[i];
      ContextPartsCount(init);
    }
  }

  /** Without documents, or with none whose content is a string, the knowledge-base
      section is the fixed notice; any string content gives a section of document lines. */
  lemma KnowledgeDefault(docs: seq<Document>)
    requires forall i :: 0 <= i < |docs| ==> !docs[i].content.NoContent?
    ensures RagSection(docs).Success?
    ensures (forall i :: 0 <= i < |docs| ==> docs[i].content.NonText?) ==> RagSection(docs).value == NoKnowledge
    ensures (exists i :: 0 <= i < |docs| && docs[i].content.Text?) ==> StartsWith(RagSection(docs).value, "Document (relevance ")
  {
    ContextPartsCount(docs);
    var parts := ContextParts(docs).value;
    if parts != [] {
      JoinStartsWithFirst(parts, "\n\n");
      assert StartsWith(parts[0], "Document (relevance ");
      assert Join(parts, "\n\n")[..|parts[0]|] == parts[0];
    }
  }

  /** One entry with a message and a reply contributes the user line, then the
      assistant line; an entry with neither contributes nothing. */
  lemma EntryLineOrder(message: string, response: BotResponse)
    ensures message != "" && ResponseLine(response) != "" ==>
      EntryLines(Entry(Some(message), response)) == Success(["User: " + message, "Assistant: " + ResponseLine(response)])
    ensures ResponseLine(response) == "" ==> EntryLines(Entry(None, response)) == Success([])
  {
    assert ["User: " + message] + ["Assistant: " + ResponseLine(response)] == ["User: " + message, "Assistant: " + ResponseLine(response)];
  }
}
