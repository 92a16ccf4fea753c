/** The per-user memory engine: a `UserClient` owns one user's dialogue log, summary log, raw-context
    vector collection, summary vector collection and 200-slot short-term buffer; `MemoryModule` is the
    registry of clients keyed by user id.

    The embedding model is the client's constant function `embed`; vector search and the reranker are
    oracles passed to the query methods. The clock is the `now` argument of `InsertRecord`. */
module MilvusDatabase {
  import opened Optional
  import opened Strings
  import opened Store
  import opened Seqs

  /** `deque(maxlen=200)`: the capacity of the short-term buffer. */
  const ShortTermCapacity: nat := 200
  /** The number of latest dialogues embedded together with a new record (the record included). */
  const ContextWindowSize: nat := 5
  /** The number of latest dialogues put in front of an unmatched single-sentence query. */
  const FallbackWindowSize: nat := 4
  /** `text[:50]` in the placeholder summarizer. */
  const SummaryPrefixLength: nat := 50

  /** One entry of the raw-context collection: the id of the dialogue it belongs to and the
      embedding of the context window built when that dialogue was inserted. */
  datatype RawEntry = RawEntry(id: int, embedding: seq<real>)

  /** One entry of the summary collection. */
  datatype SummaryEntry = SummaryEntry(id: int, embedding: seq<real>, startTime: int, endTime: int, summaryText: string)

  /** One hit of a vector search: the collection entry found and its distance to the query. */
  datatype Hit<E> = Hit(entry: E, distance: real)

  /** One item of the reranker's answer: a position in the documents it was given and its score. */
  datatype RerankHit = RerankHit(index: nat, score: real)

  /** One element of a query's answer (the dictionaries the source returns). */
  datatype Retrieved =
    | Dialogue(id: int, text: string, distance: real)
    | Summary(id: int, text: string, startTime: int, endTime: int, distance: real)

  /** An element of a list query, by its Python type. */
  datatype QueryItem = FloatItem(value: real) | StrItem(text: string) | OtherItem

  /** The `query_data` argument of the query operations. */
  datatype QueryData = ListQuery(items: seq<QueryItem>) | TextQuery(text: string) | OtherQuery

  /** How a query is answered, decided by the shape of its data. */
  datatype Route =
    | VectorRoute(vector: seq<real>)
    | ContextRoute(queryText: string)
    | SentenceRoute(queryText: string)
    | Unsupported

  type RawSearch = (seq<RawEntry>, seq<real>, int) -> seq<Hit<RawEntry>>
  type SummarySearch = (seq<SummaryEntry>, seq<real>, int) -> seq<Hit<SummaryEntry>>
  type Reranker = (string, seq<string>, int) -> seq<RerankHit>

  /** What the vector search promises: every hit is an entry of the collection it searched. */
  ghost predicate RawSearchWellFormed(search: RawSearch)
  {
    forall idx, v, k, h :: h in search(idx, v, k) ==> h.entry in idx
  }

  ghost predicate SummarySearchWellFormed(search: SummarySearch)
  {
    forall idx, v, k, h :: h in search(idx, v, k) ==> h.entry in idx
  }

  // ----- short-term buffer -----

  /** `deque.append` on a deque bounded by `ShortTermCapacity`: when full, the oldest item goes. */
  function Push(buffer: seq<string>, x: string): (r: seq<string>)
  {
    if |buffer| < ShortTermCapacity then buffer + [x] else buffer[1..] + [x]
  }

  /** A full buffer evicts its oldest item first, and the buffer never grows past its capacity:
      pushing onto the last `ShortTermCapacity` items of a history keeps exactly the last
      `ShortTermCapacity` items of the extended history. */
  lemma PushKeepsLastN(history: seq<string>, x: string)
    ensures Push(LastN(history, ShortTermCapacity), x) == LastN(history + [x], ShortTermCapacity)
    ensures |Push(LastN(history, ShortTermCapacity), x)| <= ShortTermCapacity
  {
    var b := LastN(history, ShortTermCapacity);
    var h := history + [x];
    if |history| >= ShortTermCapacity {
      assert b[1..] + [x] == h[|h| - ShortTermCapacity..];
    }
  }

  // ----- pure parts of insert_record and summarize_memory -----

  /** The record passes the check `not role or not text`. */
  predicate Accepts(record: map<string, string>)
  {
    "role" in record && record["role"] != "" && "text" in record && record["text"] != ""
  }

  /** The texts of the latest `ContextWindowSize` dialogues (newest first), joined by spaces. */
  function ContextWindow(ds: seq<DialogueRecord>): string
  {
    Join(Texts(LatestDialogues(ds, ContextWindowSize)), " ")
  }

  /** The texts of the latest `FallbackWindowSize` dialogues (newest first) followed by the query,
      joined by spaces. */
  function FallbackContext(ds: seq<DialogueRecord>, query: string): string
  {
    Join(Texts(LatestDialogues(ds, FallbackWindowSize)) + [query], " ")
  }

  /** `_summarize_placeholder_func`. */
  function SummarizePlaceholder(text: string): (r: string)
    ensures "Summary of: " <= r
    ensures |r| == 15 + Min(SummaryPrefixLength, |text|)
    ensures r[12..|r| - 3] <= text
    ensures r[|r| - 3..] == "..."
  {
    "Summary of: " + text[..Min(SummaryPrefixLength, |text|)] + "..."
  }

  /** The placeholder summary depends only on the first `SummaryPrefixLength` characters. */
  lemma PlaceholderSeesOnlyPrefix(a: string, b: string)
    requires |a| >= SummaryPrefixLength && |b| >= SummaryPrefixLength
    requires a[..SummaryPrefixLength] == b[..SummaryPrefixLength]
    ensures SummarizePlaceholder(a) == SummarizePlaceholder(b)
  {
  }

  /** The summary with id `id` of the dialogues newer than the watermark `w`, or `None` when
      there are none: it spans from the first to the last of them and summarizes their
      space-joined texts. */
  function SummaryAfter(ds: seq<DialogueRecord>, w: int, id: int): (r: Option<SummaryRecord>)
    ensures r.None? <==> NewDialogues(ds, w) == []
    ensures r.Some? ==> r.value.id == id
  {
    var pending := NewDialogues(ds, w);
    if pending == [] then None
    else Some(SummaryRecord(id, pending[0].time, pending[|pending| - 1].time,
                            SummarizePlaceholder(Join(Texts(pending), " "))))
  }

  /** The summary `summarize_memory` adds to the summary table `ss` over the dialogue table `ds`,
      or `None` when there is nothing newer than the watermark. */
  function NextSummary(ds: seq<DialogueRecord>, ss: seq<SummaryRecord>): (r: Option<SummaryRecord>)
    ensures r.Some? ==> r.value.id == |ss| + 1
  {
    SummaryAfter(ds, Watermark(ss), |ss| + 1)
  }

  /** On a time-ordered log, the dialogues newer than `w` run from the first of them to the
      newest dialogue. */
  lemma PendingEnds(ds: seq<DialogueRecord>, w: int)
    requires NonDecreasing(ds, Time)
    requires NewDialogues(ds, w) != []
    ensures var p := NewDialogues(ds, w);
      w < p[0].time && p[|p| - 1] == ds[|ds| - 1]
  {
    var p := NewDialogues(ds, w);
    NewDialoguesSuffix(ds, w);
    var k := PendingStart(ds, w);
    assert p[0] in p;
  }

  /** On a time-ordered log, every dialogue newer than `w` lies between the first and the last of
      the dialogues newer than `w`. */
  lemma PendingBounds(ds: seq<DialogueRecord>, w: int, x: DialogueRecord)
    requires NonDecreasing(ds, Time)
    requires x in ds && x.time > w
    ensures var p := NewDialogues(ds, w);
      p != [] && p[0].time <= x.time <= p[|p| - 1].time
  {
    var p := NewDialogues(ds, w);
    NewDialoguesSuffix(ds, w);
    var k := PendingStart(ds, w);
    assert x in p;
    var j :| 0 <= j < |p| && p[j] == x;
    assert p[j] == ds[k + j] && p[0] == ds[k] && p[|p| - 1] == ds[|ds| - 1];
    TimeOrdered(ds, k, k + j);
    TimeOrdered(ds, k + j, |ds| - 1);
  }

  /** On a time-ordered log, there is a summary after `w` exactly when some dialogue is newer
      than `w`; it starts after `w`, ends at the newest dialogue, and its range holds every
      dialogue newer than `w`. */
  lemma SummaryAfterSpec(ds: seq<DialogueRecord>, w: int, id: int)
    requires NonDecreasing(ds, Time)
    ensures SummaryAfter(ds, w, id).None? <==> forall x :: x in ds ==> x.time <= w
    ensures SummaryAfter(ds, w, id).Some? ==>
      var s := SummaryAfter(ds, w, id).value;
      && s.id == id
      && w < s.startTime <= s.endTime
      && s.endTime == ds[|ds| - 1].time
      && (forall x :: x in ds && x.time > w ==> s.startTime <= x.time <= s.endTime)
  {
    var p := NewDialogues(ds, w);
    if p != [] {
      PendingEnds(ds, w);
      forall x | x in ds && x.time > w ensures p[0].time <= x.time <= p[|p| - 1].time {
        PendingBounds(ds, w, x);
      }
    } else {
      forall x | x in ds ensures x.time <= w {
        assert x !in p;
      }
    }
  }

  /** `summarize_memory` adds a summary exactly when some dialogue is newer than every summary's
      end time; the new summary takes the next id, starts after every earlier summary ends, and
      spans every dialogue newer than the watermark, up to the newest one. */
  lemma NextSummarySpec(ds: seq<DialogueRecord>, ss: seq<SummaryRecord>)
    requires NonDecreasing(ds, Time)
    ensures NextSummary(ds, ss).None? <==> forall x :: x in ds ==> x.time <= Watermark(ss)
    ensures NextSummary(ds, ss).Some? ==>
      var s := NextSummary(ds, ss).value;
      && s.id == |ss| + 1
      && s.startTime <= s.endTime
      && (forall i :: 0 <= i < |ss| ==> ss[i].endTime < s.startTime)
      && s.endTime == ds[|ds| - 1].time
      && (forall x :: x in ds && x.time > Watermark(ss) ==> s.startTime <= x.time <= s.endTime)
  {
    SummaryAfterSpec(ds, Watermark(ss), |ss| + 1);
    WatermarkIsMaxEnd(ss);
  }

  /** Once a summary that starts after every earlier one ends is stored, the watermark is its end. */
  lemma WatermarkSnoc(ss: seq<SummaryRecord>, s: SummaryRecord)
    requires s.startTime <= s.endTime
    requires forall i :: 0 <= i < |ss| ==> ss[i].endTime < s.startTime
    ensures Watermark(ss + [s]) == s.endTime
  {
    var ss' := ss + [s];
    WatermarkIsMaxEnd(ss');
    var i :| 0 <= i < |ss'| && Watermark(ss') == ss'[i].endTime;
    assert ss'[|ss|] == s;
    if i < |ss| {
      assert ss'[i] == ss[i];
    }
  }

  /** Summarizing twice in a row adds nothing the second time: once the new summary is stored,
      no dialogue is newer than the watermark. */
  lemma SummarizeTwiceIsNoOp(ds: seq<DialogueRecord>, ss: seq<SummaryRecord>)
    requires NonDecreasing(ds, Time)
    requires NextSummary(ds, ss).Some?
    ensures NextSummary(ds, ss + [NextSummary(ds, ss).value]).None?
  {
    var s := NextSummary(ds, ss).value;
    NextSummarySpec(ds, ss);
    WatermarkSnoc(ss, s);
    forall x | x in ds ensures x.time <= s.endTime {
      var j :| 0 <= j < |ds| && ds[j] == x;
      TimeOrdered(ds, j, |ds| - 1);
    }
    SummaryAfterSpec(ds, s.endTime, |ss| + 2);
  }

  // ----- a time watermark misses dialogues in its own second -----

  /** A dialogue stamped in the same second as the end of the latest summary is never
      summarized: `summarize_memory` selects only `time > end_time`. Any two dialogues in one
      second, with a summary run between them, are a valid log; the first run summarizes the
      first dialogue alone, and the second run finds nothing. */
  lemma SameSecondDialogueIsSkipped(d1: DialogueRecord, d2: DialogueRecord)
    requires d1.id == 1 && d2.id == 2
    requires 0 < d1.time == d2.time
    ensures DialogueLog([d1, d2])
    ensures NextSummary([d1], []) == Some(SummaryRecord(1, d1.time, d1.time, SummarizePlaceholder(d1.text)))
    ensures NextSummary([d1, d2], [SummaryRecord(1, d1.time, d1.time, SummarizePlaceholder(d1.text))]).None?
  {
    DialogueLogSnoc([], d1);
    assert [] + [d1] == [d1];
    DialogueLogSnoc([d1], d2);
    assert NewDialogues([d1], 0) == [d1] by {
      NewDialoguesStep([d1], 0);
      assert [d1][..0] == [];
    }
    assert Texts([d1]) == [d1.text];
    var s := SummaryRecord(1, d1.time, d1.time, SummarizePlaceholder(d1.text));
    assert Watermark([s]) == d1.time by {
      WatermarkIsMaxEnd([s]);
    }
    NoNewDialogues([d1, d2], d1.time);
  }

  /** The dialogues after row `lastId`: `WHERE id > lastId ORDER BY id`. */
  function NewDialoguesById(ds: seq<DialogueRecord>, lastId: int): (r: seq<DialogueRecord>)
    ensures forall x :: x in r <==> x in ds && x.id > lastId
  {
    if ds == [] then []
    else
      var r := NewDialoguesById(ds[..|ds| - 1], lastId);
      assert ds == ds[..|ds| - 1] + [ds[|ds| - 1]];
      if ds[|ds| - 1].id > lastId then r + [ds[|ds| - 1]] else r
  }

  /** The summary `summarize_memory` would add if its watermark were the id of the last dialogue
      already summarized, rather than a time. */
  function NextSummaryById(ds: seq<DialogueRecord>, ss: seq<SummaryRecord>, lastId: int): (r: Option<SummaryRecord>)
    ensures r.None? <==> NewDialoguesById(ds, lastId) == []
    ensures r.Some? ==> r.value.id == |ss| + 1
  {
    var pending := NewDialoguesById(ds, lastId);
    if pending == [] then None
    else Some(SummaryRecord(|ss| + 1, pending[0].time, pending[|pending| - 1].time,
                            SummarizePlaceholder(Join(Texts(pending), " "))))
  }

  /** On a numbered log, the dialogues after row `k` are exactly the rows from position `k` on. */
  lemma {:induction false} NewDialoguesByIdSuffix(ds: seq<DialogueRecord>, k: nat)
    requires forall i :: 0 <= i < |ds| ==> ds[i].id == i + 1
    requires k <= |ds|
    ensures NewDialoguesById(ds, k) == ds[k..]
  {
    if ds != [] {
      var init := ds[..|ds| - 1];
      if k < |ds| {
        NewDialoguesByIdSuffix(init, k);
        SnocSlice(ds, k);
      } else {
        NoDialoguesAfterLastId(ds, k);
      }
    }
  }

  lemma {:induction false} NoDialoguesAfterLastId(ds: seq<DialogueRecord>, lastId: int)
    requires forall i :: 0 <= i < |ds| ==> ds[i].id <= lastId
    ensures NewDialoguesById(ds, lastId) == []
  {
    if ds != [] {
      NoDialoguesAfterLastId(ds[..|ds| - 1], lastId);
    }
  }

  /** With the id watermark, a run after row `k` summarizes exactly the rows from position `k` on,
      whatever their times: it starts at row `k + 1`'s time and ends at the newest row's. */
  lemma NextSummaryByIdSpec(ds: seq<DialogueRecord>, ss: seq<SummaryRecord>, k: nat)
    requires forall i :: 0 <= i < |ds| ==> ds[i].id == i + 1
    requires k <= |ds|
    ensures NextSummaryById(ds, ss, k).None? <==> k == |ds|
    ensures NextSummaryById(ds, ss, k).Some? ==>
      NextSummaryById(ds, ss, k).value ==
        SummaryRecord(|ss| + 1, ds[k].time, ds[|ds| - 1].time, SummarizePlaceholder(Join(Texts(ds[k..]), " ")))
  {
    NewDialoguesByIdSuffix(ds, k);
  }

  /** The id watermark leaves no gap: a run over rows `k + 1 ..= m`, then a run after row `m`
      over a longer log, together cover every row from position `k` on, each exactly once and
      in order. */
  lemma ConsecutiveRunsCoverAll(ds: seq<DialogueRecord>, k: nat, m: nat)
    requires forall i :: 0 <= i < |ds| ==> ds[i].id == i + 1
    requires k <= m <= |ds|
    ensures NewDialoguesById(ds[..m], k) + NewDialoguesById(ds, m) == ds[k..]
  {
    assert NewDialoguesById(ds[..m], k) == ds[k..m] by {
      NewDialoguesByIdSuffix(ds[..m], k);
      assert ds[..m][k..] == ds[k..m];
    }
    NewDialoguesByIdSuffix(ds, m);
    assert ds[k..m] + ds[m..] == ds[k..];
  }

  /** When the rows after position `k` are exactly those newer than `w`, the time filter selects
      them. */
  lemma {:induction false} NewDialoguesSplit(ds: seq<DialogueRecord>, w: int, k: nat)
    requires k <= |ds|
    requires forall i :: 0 <= i < k ==> ds[i].time <= w
    requires forall i :: k <= i < |ds| ==> ds[i].time > w
    ensures NewDialogues(ds, w) == ds[k..]
  {
    if k == |ds| {
      NoNewDialogues(ds, w);
    } else {
      NewDialoguesStep(ds, w);
      NewDialoguesSplit(ds[..|ds| - 1], w, k);
      SnocSlice(ds, k);
    }
  }

  /** The two watermarks agree unless a dialogue shares the second of the latest summary's end:
      when the first `k` rows are exactly those at or before the time watermark, `summarize_memory`
      as written and the id watermark `k` produce the same summary. */
  lemma NextSummaryByIdAgrees(ds: seq<DialogueRecord>, ss: seq<SummaryRecord>, k: nat)
    requires forall i :: 0 <= i < |ds| ==> ds[i].id == i + 1
    requires k <= |ds|
    requires forall i :: 0 <= i < k ==> ds[i].time <= Watermark(ss)
    requires forall i :: k <= i < |ds| ==> ds[i].time > Watermark(ss)
    ensures NextSummary(ds, ss) == NextSummaryById(ds, ss, k)
  {
    NewDialoguesSplit(ds, Watermark(ss), k);
    NewDialoguesByIdSuffix(ds, k);
  }

  /** With the id watermark, the dialogue `SameSecondDialogueIsSkipped` leaves out is summarized
      by the second run. */
  lemma SameSecondDialogueIsSummarizedById(d1: DialogueRecord, d2: DialogueRecord)
    requires d1.id == 1 && d2.id == 2
    requires 0 < d1.time == d2.time
    ensures NextSummaryById([d1], [], 0) == Some(SummaryRecord(1, d1.time, d1.time, SummarizePlaceholder(d1.text)))
    ensures NextSummaryById([d1, d2], [SummaryRecord(1, d1.time, d1.time, SummarizePlaceholder(d1.text))], 1)
      == Some(SummaryRecord(2, d2.time, d2.time, SummarizePlaceholder(d2.text)))
  {
    ByIdRunOverLastRow([], d1, []);
    ByIdRunOverLastRow([d1], d2, [SummaryRecord(1, d1.time, d1.time, SummarizePlaceholder(d1.text))]);
  }

  /** With the id watermark at the previous row, a run summarizes the newest row alone, whatever
      its time. */
  lemma ByIdRunOverLastRow(ds: seq<DialogueRecord>, d: DialogueRecord, ss: seq<SummaryRecord>)
    requires forall i :: 0 <= i < |ds| ==> ds[i].id == i + 1
    requires d.id == |ds| + 1
    ensures NextSummaryById(ds + [d], ss, |ds|) == Some(SummaryRecord(|ss| + 1, d.time, d.time, SummarizePlaceholder(d.text)))
  {
    NextSummaryByIdSpec(ds + [d], ss, |ds|);
    assert (ds + [d])[|ds|..] == [d];
    assert Texts([d]) == [d.text];
  }

  // ----- the shape of a query -----

  predicate AllFloats(items: seq<QueryItem>)
  {
    forall i :: 0 <= i < |items| ==> items[i].FloatItem?
  }

  predicate AllStrings(items: seq<QueryItem>)
  {
    forall i :: 0 <= i < |items| ==> items[i].StrItem?
  }

  function Floats(items: seq<QueryItem>): (v: seq<real>)
    requires AllFloats(items)
    ensures |v| == |items|
    ensures forall i :: 0 <= i < |items| ==> v[i] == items[i].value
  {
    if items == [] then [] else Floats(items[..|items| - 1]) + [items[|items| - 1].value]
  }

  function Strs(items: seq<QueryItem>): (t: seq<string>)
    requires AllStrings(items)
    ensures |t| == |items|
    ensures forall i :: 0 <= i < |items| ==> t[i] == items[i].text
  {
    if items == [] then [] else Strs(items[..|items| - 1]) + [items[|items| - 1].text]
  }

  /** The `isinstance` tests at the head of both query operations, in the source's order. */
  function Classify(q: QueryData): Route
  {
    match q
    case ListQuery(items) =>
      if AllFloats(items) then VectorRoute(Floats(items))
      else if AllStrings(items) then ContextRoute(Join(Strs(items), " "))
      else Unsupported
    case TextQuery(t) => SentenceRoute(t)
    case OtherQuery => Unsupported
  }

  /** The text handed to the reranker, if the route has one. */
  function QueryText(route: Route): Option<string>
  {
    match route
    case ContextRoute(t) => Some(t)
    case SentenceRoute(t) => Some(t)
    case _ => None
  }

  /** A list of floats, the empty list included, is searched as it is and never reranked; a list of
      strings is searched by the embedding of its space-joined text; a list mixing types and any
      other shape are unsupported. */
  lemma ClassifySpec(q: QueryData)
    ensures q == ListQuery([]) ==> Classify(q) == VectorRoute([])
    ensures q.ListQuery? && AllFloats(q.items) ==>
      Classify(q).VectorRoute? && |Classify(q).vector| == |q.items| && QueryText(Classify(q)).None?
    ensures q.ListQuery? && q.items != [] && AllStrings(q.items) ==>
      Classify(q) == ContextRoute(Join(Strs(q.items), " "))
    ensures q.ListQuery? && !AllFloats(q.items) && !AllStrings(q.items) ==> Classify(q) == Unsupported
    ensures q.TextQuery? ==> Classify(q) == SentenceRoute(q.text)
    ensures QueryText(Classify(q)).Some? <==> Classify(q).ContextRoute? || Classify(q).SentenceRoute?
  {
    if q.ListQuery? && q.items != [] && AllStrings(q.items) {
      assert !q.items[0].FloatItem?;
    }
  }

  // ----- the SQL lookups the queries make -----

  /** `SELECT text FROM user_dialogues WHERE id = ?` followed by `fetchone()`. */
  function FindById(ds: seq<DialogueRecord>, id: int): (r: Option<DialogueRecord>)
    ensures r.Some? ==> r.value in ds && r.value.id == id
    ensures r.None? <==> forall d :: d in ds ==> d.id != id
  {
    if ds == [] then None
    else if ds[0].id == id then Some(ds[0])
    else
      var r := FindById(ds[1..], id);
      assert ds == [ds[0]] + ds[1..];
      r
  }

  /** `SELECT id, text FROM user_dialogues WHERE text = ?` followed by `fetchone()`: the first row,
      in table order, holding exactly that text. */
  function FindByText(ds: seq<DialogueRecord>, text: string): (r: Option<DialogueRecord>)
    ensures r.Some? ==> r.value in ds && r.value.text == text
    ensures r.None? <==> forall d :: d in ds ==> d.text != text
  {
    if ds == [] then None
    else if ds[0].text == text then Some(ds[0])
    else
      var r := FindByText(ds[1..], text);
      assert ds == [ds[0]] + ds[1..];
      r
  }

  /** The result rows `_query_milvus_raw_text` builds from the search hits: one per hit whose id
      names a dialogue, carrying that dialogue's text and the hit's distance, in hit order. */
  function ResolveRawHits(ds: seq<DialogueRecord>, hits: seq<Hit<RawEntry>>): (r: seq<Retrieved>)
    ensures |r| <= |hits|
    ensures forall x :: x in r ==> x.Dialogue? && exists d :: d in ds && d.id == x.id && d.text == x.text
  {
    if hits == [] then []
    else
      var r := ResolveRawHits(ds, hits[..|hits| - 1]);
      var h := hits[|hits| - 1];
      match FindById(ds, h.entry.id)
      case None => r
      case Some(d) => r + [Dialogue(h.entry.id, d.text, h.distance)]
  }

  /** A hit whose id names a dialogue is kept, with that dialogue's text; one that names none is dropped. */
  lemma ResolveRawHitsSnoc(ds: seq<DialogueRecord>, hits: seq<Hit<RawEntry>>, h: Hit<RawEntry>)
    ensures FindById(ds, h.entry.id).None? ==> ResolveRawHits(ds, hits + [h]) == ResolveRawHits(ds, hits)
    ensures FindById(ds, h.entry.id).Some? ==>
      ResolveRawHits(ds, hits + [h]) == ResolveRawHits(ds, hits) + [Dialogue(h.entry.id, FindById(ds, h.entry.id).value.text, h.distance)]
  {
    assert (hits + [h])[..|hits|] == hits;
  }

  /** The result rows `_query_milvus_summary` builds: one per hit, in hit order. */
  function SummaryResults(hits: seq<Hit<SummaryEntry>>): (r: seq<Retrieved>)
    ensures |r| == |hits|
    ensures forall i :: 0 <= i < |hits| ==>
      r[i] == Summary(hits[i].entry.id, hits[i].entry.summaryText, hits[i].entry.startTime, hits[i].entry.endTime, hits[i].distance)
  {
    if hits == [] then []
    else
      var h := hits[|hits| - 1];
      SummaryResults(hits[..|hits| - 1]) + [Summary(h.entry.id, h.entry.summaryText, h.entry.startTime, h.entry.endTime, h.distance)]
  }

  /** Every summary result carries the id and text of one of the hits. */
  lemma SummaryResultsFromHits(hits: seq<Hit<SummaryEntry>>)
    ensures forall y :: y in SummaryResults(hits) ==>
      exists h :: h in hits && h.entry.id == y.id && h.entry.summaryText == y.text
  {
    var c := SummaryResults(hits);
    forall y | y in c ensures exists h :: h in hits && h.entry.id == y.id && h.entry.summaryText == y.text {
      var i :| 0 <= i < |c| && c[i] == y;
      assert hits[i] in hits;
    }
  }

  /** Hits drawn from a collection resolve to results whose ids key entries of that collection. */
  lemma {:induction false} ResolveRawHitsFromIndex(ds: seq<DialogueRecord>, hits: seq<Hit<RawEntry>>, idx: seq<RawEntry>)
    requires forall h :: h in hits ==> h.entry in idx
    ensures forall x :: x in ResolveRawHits(ds, hits) ==> exists e :: e in idx && e.id == x.id
  {
    if hits != [] {
      var init := hits[..|hits| - 1];
      var h := hits[|hits| - 1];
      assert forall g :: g in init ==> g in hits;
      ResolveRawHitsFromIndex(ds, init, idx);
      assert h in hits;
    }
  }

  /** A summary result carries the id, range and text of the summary entry `e`. */
  predicate Carries(x: Retrieved, e: SummaryEntry)
  {
    x.Summary? && x.id == e.id && x.text == e.summaryText && x.startTime == e.startTime && x.endTime == e.endTime
  }

  /** Hits drawn from a summary collection give results that each carry an entry of it. */
  lemma SummaryResultsFromIndex(hits: seq<Hit<SummaryEntry>>, idx: seq<SummaryEntry>)
    requires forall h :: h in hits ==> h.entry in idx
    ensures forall x :: x in SummaryResults(hits) ==> exists e :: e in idx && Carries(x, e)
  {
    var c := SummaryResults(hits);
    forall x | x in c ensures exists e :: e in idx && Carries(x, e) {
      var i :| 0 <= i < |c| && c[i] == x;
      assert hits[i] in hits;
      assert Carries(x, hits[i].entry);
    }
  }

  /** A summary result reports the summary row `s`: its id, range and text. */
  predicate Reports(x: Retrieved, s: SummaryRecord)
  {
    x.Summary? && x.id == s.id && x.text == s.summaryText && x.startTime == s.startTime && x.endTime == s.endTime
  }

  /** Re-scoring keeps what a result carries. */
  lemma RescoredCarries(c: seq<Retrieved>, r: seq<Retrieved>, idx: seq<SummaryEntry>)
    requires forall x :: x in r ==> exists y :: y in c && Rescored(x, y)
    requires forall y :: y in c ==> exists e :: e in idx && Carries(y, e)
    ensures forall x :: x in r ==> exists e :: e in idx && Carries(x, e)
  {
    forall x | x in r ensures exists e :: e in idx && Carries(x, e) {
      var y :| y in c && Rescored(x, y);
      var e :| e in idx && Carries(y, e);
      assert Carries(x, e);
    }
  }

  /** On a keyed summary collection, a result carrying an entry reports that entry's row. */
  lemma CarriedAreRows(r: seq<Retrieved>, idx: seq<SummaryEntry>, ss: seq<SummaryRecord>)
    requires SummaryIndexKeyed(idx, ss)
    requires forall x :: x in r ==> exists e :: e in idx && Carries(x, e)
    ensures forall x :: x in r ==> exists s :: s in ss && Reports(x, s)
  {
    forall x | x in r ensures exists s :: s in ss && Reports(x, s) {
      var e :| e in idx && Carries(x, e);
      var i :| 0 <= i < |idx| && idx[i] == e;
      var s := ss[e.id - 1];
      assert Describes(e, s);
      assert Reports(x, s);
    }
  }

  /** `[r for r in results if r['id'] == matched_id]`. */
  function KeepId(rs: seq<Retrieved>, id: int): (r: seq<Retrieved>)
    ensures forall x :: x in r <==> x in rs && x.id == id
    ensures |r| <= |rs|
  {
    if rs == [] then []
    else
      var r := KeepId(rs[..|rs| - 1], id);
      assert rs == rs[..|rs| - 1] + [rs[|rs| - 1]];
      if rs[|rs| - 1].id == id then r + [rs[|rs| - 1]] else r
  }

  // ----- reranking -----

  /** The texts handed to the reranker: `[r['text'] for r in results]` (or `summary_text`). */
  function DocTexts(rs: seq<Retrieved>): (ts: seq<string>)
    ensures |ts| == |rs|
    ensures forall i :: 0 <= i < |rs| ==> ts[i] == rs[i].text
  {
    if rs == [] then [] else DocTexts(rs[..|rs| - 1]) + [rs[|rs| - 1].text]
  }

  /** What the reranker promises: every index names one of the documents, and no document twice. */
  predicate RankingWellFormed(ranked: seq<RerankHit>, n: nat)
  {
    && (forall j :: 0 <= j < |ranked| ==> ranked[j].index < n)
    && (forall j, k :: 0 <= j < k < |ranked| ==> ranked[j].index != ranked[k].index)
  }

  ghost predicate RerankerWellFormed(rerank: Reranker)
  {
    forall q, docs, k :: RankingWellFormed(rerank(q, docs, k), |docs|)
  }

  /** `x` is `y` with at most its distance changed. */
  predicate Rescored(x: Retrieved, y: Retrieved)
  {
    x == y.(distance := x.distance)
  }

  /** The result list rebuilt in the reranker's order, each element's distance set to `1 - score`. */
  function Reranked(results: seq<Retrieved>, ranked: seq<RerankHit>): (r: seq<Retrieved>)
    requires RankingWellFormed(ranked, |results|)
    ensures |r| == |ranked|
  {
    if ranked == [] then []
    else
      var h := ranked[|ranked| - 1];
      Reranked(results, ranked[..|ranked| - 1]) + [results[h.index].(distance := 1.0 - h.score)]
  }

  /** Reranking reorders and re-scores: the j-th output is the result the reranker ranked j-th, with
      only its distance replaced by `1 - score`; no result appears twice and none is invented. */
  lemma RerankedSpec(results: seq<Retrieved>, ranked: seq<RerankHit>)
    requires RankingWellFormed(ranked, |results|)
    ensures forall j :: 0 <= j < |ranked| ==>
      var x := Reranked(results, ranked)[j];
      var y := results[ranked[j].index];
      x == y.(distance := 1.0 - ranked[j].score) && x.id == y.id && x.text == y.text
    ensures forall x :: x in Reranked(results, ranked) ==> exists y :: y in results && Rescored(x, y)
  {
    var r := Reranked(results, ranked);
    forall j | 0 <= j < |ranked| ensures r[j] == results[ranked[j].index].(distance := 1.0 - ranked[j].score) {
      RerankedAt(results, ranked, j);
    }
    forall x | x in r ensures exists y :: y in results && Rescored(x, y) {
      var j :| 0 <= j < |r| && r[j] == x;
      RerankedAt(results, ranked, j);
      assert results[ranked[j].index] in results;
    }
  }

  /** The j-th reranked result is the result the reranker ranked j-th, re-scored. */
  lemma {:induction false} RerankedAt(results: seq<Retrieved>, ranked: seq<RerankHit>, j: nat)
    requires RankingWellFormed(ranked, |results|)
    requires j < |ranked|
    ensures Reranked(results, ranked)[j] == results[ranked[j].index].(distance := 1.0 - ranked[j].score)
    decreases |ranked|
  {
    var init := ranked[..|ranked| - 1];
    assert RankingWellFormed(init, |results|) by {
      assert forall k :: 0 <= k < |init| ==> init[k] == ranked[k];
    }
    if j < |init| {
      RerankedAt(results, init, j);
      assert ranked[j] == init[j];
    }
  }

  /** The rerank step of both query operations: applied only when there is a non-empty query
      text, `top_k > 1` and at least one result. */
  function MaybeRerank(queryText: Option<string>, topK: int, results: seq<Retrieved>, rerank: Reranker): seq<Retrieved>
    requires RerankerWellFormed(rerank)
  {
    if queryText.Some? && queryText.value != "" && topK > 1 && results != [] then
      Reranked(results, rerank(queryText.value, DocTexts(results), topK))
    else results
  }

  /** Without a rerank the search results come back unchanged; with one, only results already
      found come back, at most as many as were found. */
  lemma MaybeRerankSpec(queryText: Option<string>, topK: int, results: seq<Retrieved>, rerank: Reranker)
    requires RerankerWellFormed(rerank)
    ensures queryText.None? || queryText == Some("") || topK <= 1 || results == [] ==>
      MaybeRerank(queryText, topK, results, rerank) == results
    ensures forall x :: x in MaybeRerank(queryText, topK, results, rerank) ==>
      exists y :: y in results && Rescored(x, y)
  {
    if queryText.Some? && queryText.value != "" && topK > 1 && results != [] {
      var ranked := rerank(queryText.value, DocTexts(results), topK);
      assert RankingWellFormed(ranked, |DocTexts(results)|);
      RerankedSpec(results, ranked);
    } else {
      forall x | x in results ensures exists y :: y in results && Rescored(x, y) {
        assert Rescored(x, x);
      }
    }
  }

  // ----- the client -----

  /** Dialogue ids are the row numbers 1, 2, ... and times never decrease along the log. */
  ghost predicate DialogueLog(ds: seq<DialogueRecord>)
  {
    && (forall i :: 0 <= i < |ds| ==> ds[i].id == i + 1)
    && NonDecreasing(ds, Time)
  }

  /** Summary ids are the row numbers 1, 2, ...; each summary spans a non-empty time range that
      starts after the previous summary ends. */
  ghost predicate SummaryLog(ss: seq<SummaryRecord>)
  {
    && (forall i :: 0 <= i < |ss| ==> ss[i].id == i + 1 && ss[i].startTime <= ss[i].endTime)
    && (forall i :: 0 < i < |ss| ==> ss[i - 1].endTime < ss[i].startTime)
  }

  /** The summaries of a valid log cover disjoint time ranges, in table order. */
  lemma {:induction false} SummaryLogOrdered(ss: seq<SummaryRecord>, i: int, j: int)
    requires SummaryLog(ss) && 0 <= i < j < |ss|
    ensures ss[i].endTime < ss[j].startTime
    decreases j - i
  {
    if i + 1 < j {
      SummaryLogOrdered(ss, i, j - 1);
    }
  }

  /** Every raw-context entry is keyed by the id of an existing dialogue, at most one per dialogue. */
  ghost predicate RawIndexKeyed(es: seq<RawEntry>, n: nat)
  {
    && (forall i :: 0 <= i < |es| ==> 1 <= es[i].id <= n)
    && (forall i :: 0 < i < |es| ==> es[i - 1].id < es[i].id)
  }

  /** A summary entry duplicates its summary row: the same id, time range and text. */
  predicate Describes(e: SummaryEntry, s: SummaryRecord)
  {
    e.id == s.id && e.startTime == s.startTime && e.endTime == s.endTime && e.summaryText == s.summaryText
  }

  /** Every summary entry is keyed by the id of an existing summary and carries that summary's
      range and text, at most one per summary. */
  ghost predicate SummaryIndexKeyed(es: seq<SummaryEntry>, ss: seq<SummaryRecord>)
  {
    && (forall i :: 0 <= i < |es| ==> 1 <= es[i].id <= |ss| && Describes(es[i], ss[es[i].id - 1]))
    && (forall i :: 0 < i < |es| ==> es[i - 1].id < es[i].id)
  }

  /** The invariant a client keeps over its tables, collections and buffer: the buffer holds
      the texts of the latest `ShortTermCapacity` dialogues, oldest first. */
  ghost predicate ClientInvariant(ds: seq<DialogueRecord>, ss: seq<SummaryRecord>, raw: seq<RawEntry>,
                                  sidx: seq<SummaryEntry>, buffer: seq<string>)
  {
    && DialogueLog(ds)
    && SummaryLog(ss)
    && RawIndexKeyed(raw, |ds|)
    && SummaryIndexKeyed(sidx, ss)
    && buffer == LastN(Texts(ds), ShortTermCapacity)
  }

  /** Appending a dialogue stamped no earlier than the newest one, with the next id, keeps the log. */
  lemma DialogueLogSnoc(ds: seq<DialogueRecord>, d: DialogueRecord)
    requires DialogueLog(ds)
    requires d.id == |ds| + 1 && (ds == [] || ds[|ds| - 1].time <= d.time)
    ensures DialogueLog(ds + [d])
  {
    var ds' := ds + [d];
    forall i, j | 0 <= i < j < |ds'| ensures Time(ds'[i]) <= Time(ds'[j]) {
      if j == |ds| {
        TimeOrdered(ds, i, |ds| - 1);
      } else {
        TimeOrdered(ds, i, j);
      }
    }
  }

  /** `insert_record` keeps the client invariant: one dialogue with the next id, its text pushed
      onto the buffer, and at most one raw-context entry keyed by the new id. */
  lemma InsertKeepsInvariant(ds: seq<DialogueRecord>, ss: seq<SummaryRecord>, raw: seq<RawEntry>,
                             sidx: seq<SummaryEntry>, buffer: seq<string>, d: DialogueRecord, added: seq<RawEntry>)
    requires ClientInvariant(ds, ss, raw, sidx, buffer)
    requires d.id == |ds| + 1 && (ds == [] || ds[|ds| - 1].time <= d.time)
    requires added == [] || (|added| == 1 && added[0].id == d.id)
    ensures ClientInvariant(ds + [d], ss, raw + added, sidx, Push(buffer, d.text))
  {
    DialogueLogSnoc(ds, d);
    BufferFollowsLog(ds, d);
    RawIndexSnoc(raw, |ds|, added);
  }

  /** The buffer after pushing a new dialogue's text holds the latest texts of the extended log. */
  lemma BufferFollowsLog(ds: seq<DialogueRecord>, d: DialogueRecord)
    ensures Push(LastN(Texts(ds), ShortTermCapacity), d.text) == LastN(Texts(ds + [d]), ShortTermCapacity)
  {
    TextsAppend(ds, [d]);
    assert Texts([d]) == [d.text];
    PushKeepsLastN(Texts(ds), d.text);
  }

  lemma RawIndexSnoc(raw: seq<RawEntry>, n: nat, added: seq<RawEntry>)
    requires RawIndexKeyed(raw, n)
    requires added == [] || (|added| == 1 && added[0].id == n + 1)
    ensures RawIndexKeyed(raw + added, n + 1)
  {
  }

  /** `summarize_memory` keeps the client invariant: the added summary is the one `NextSummary`
      describes, and at most one summary entry duplicating it is added. */
  lemma SummarizeKeepsInvariant(ds: seq<DialogueRecord>, ss: seq<SummaryRecord>, raw: seq<RawEntry>,
                                sidx: seq<SummaryEntry>, buffer: seq<string>, added: seq<SummaryEntry>)
    requires ClientInvariant(ds, ss, raw, sidx, buffer)
    requires NextSummary(ds, ss).Some?
    requires added == [] || (|added| == 1 && Describes(added[0], NextSummary(ds, ss).value))
    ensures ClientInvariant(ds, ss + [NextSummary(ds, ss).value], raw, sidx + added, buffer)
  {
    NextSummaryKeepsLog(ds, ss);
    SummaryIndexSnoc(sidx, ss, NextSummary(ds, ss).value, added);
  }

  /** Storing a summary row that keeps the summary log, and at most its own index entry, keeps the
      invariant. */
  lemma StoreKeepsInvariant(ds: seq<DialogueRecord>, ss: seq<SummaryRecord>, s: SummaryRecord,
                            raw: seq<RawEntry>, sidx: seq<SummaryEntry>,
                            buffer: seq<string>, added: seq<SummaryEntry>)
    requires ClientInvariant(ds, ss, raw, sidx, buffer)
    requires SummaryLog(ss + [s]) && s.id == |ss| + 1
    requires added == [] || (|added| == 1 && Describes(added[0], s))
    ensures ClientInvariant(ds, ss + [s], raw, sidx + added, buffer)
  {
    SummaryIndexSnoc(sidx, ss, s, added);
  }

  lemma NextSummaryKeepsLog(ds: seq<DialogueRecord>, ss: seq<SummaryRecord>)
    requires DialogueLog(ds) && SummaryLog(ss)
    requires NextSummary(ds, ss).Some?
    ensures SummaryLog(ss + [NextSummary(ds, ss).value])
  {
    NextSummarySpec(ds, ss);
    SummaryLogSnoc(ss, NextSummary(ds, ss).value);
  }

  lemma SummaryIndexSnoc(sidx: seq<SummaryEntry>, ss: seq<SummaryRecord>, s: SummaryRecord, added: seq<SummaryEntry>)
    requires SummaryIndexKeyed(sidx, ss)
    requires s.id == |ss| + 1
    requires added == [] || (|added| == 1 && Describes(added[0], s))
    ensures SummaryIndexKeyed(sidx + added, ss + [s])
  {
    var ss' := ss + [s];
    var es := sidx + added;
    forall i | 0 <= i < |es| ensures 1 <= es[i].id <= |ss'| && Describes(es[i], ss'[es[i].id - 1]) {
      if i < |sidx| {
        assert es[i] == sidx[i];
        assert ss'[sidx[i].id - 1] == ss[sidx[i].id - 1];
      }
    }
  }

  lemma SummaryLogSnoc(ss: seq<SummaryRecord>, s: SummaryRecord)
    requires SummaryLog(ss)
    requires s.id == |ss| + 1 && s.startTime <= s.endTime
    requires forall i :: 0 <= i < |ss| ==> ss[i].endTime < s.startTime
    ensures SummaryLog(ss + [s])
  {
    var ss' := ss + [s];
    forall i | 0 < i < |ss'| ensures ss'[i - 1].endTime < ss'[i].startTime {
      assert ss'[i - 1] == ss[i - 1];
    }
  }

  /** After a valid insert on a time-ordered log, the embedded context holds the texts of the up
      to five latest records, the new one first, newest to oldest; it is never empty. */
  lemma ContextWindowOfInsert(ds: seq<DialogueRecord>, d: DialogueRecord)
    requires NonDecreasing(ds + [d], Time)
    requires d.text != ""
    ensures var w := Texts(LatestDialogues(ds + [d], ContextWindowSize));
      && |w| == Min(ContextWindowSize, |ds| + 1)
      && w[0] == d.text
      && w == Reverse(Texts((ds + [d])[|ds| + 1 - |w|..]))
    ensures d.text <= ContextWindow(ds + [d])
  {
    var ds' := ds + [d];
    LatestOfNonDecreasing(ds', ContextWindowSize);
    var t := ds'[|ds'| - Min(ContextWindowSize, |ds'|)..];
    var latest := LatestDialogues(ds', ContextWindowSize);
    assert latest == Reverse(t);
    assert latest[0] == d by {
      assert Reverse(t) == [t[|t| - 1]] + Reverse(t[..|t| - 1]);
    }
    TextsReverse(t);
    var w := Texts(latest);
    assert w[0] == d.text;
  }

  /** The context window of an accepted record is never empty, so an embedding is always stored. */
  lemma ContextWindowNonEmpty(ds: seq<DialogueRecord>, d: DialogueRecord)
    requires NonDecreasing(ds + [d], Time)
    requires d.text != ""
    ensures ContextWindow(ds + [d]) != ""
  {
    ContextWindowOfInsert(ds, d);
  }

  /** The fallback context of an unmatched sentence: the texts of the up to four latest dialogues,
      newest first, then the query itself. */
  lemma FallbackContextSpec(ds: seq<DialogueRecord>, query: string)
    requires NonDecreasing(ds, Time)
    ensures FallbackContext(ds, query) ==
      Join(Reverse(Texts(ds[|ds| - Min(FallbackWindowSize, |ds|)..])) + [query], " ")
  {
    LatestOfNonDecreasing(ds, FallbackWindowSize);
    TextsReverse(ds[|ds| - Min(FallbackWindowSize, |ds|)..]);
  }

  class UserClient {
    const userId: string
    /** The embedding model, as a function from a text to its dense vector. */
    const embed: string -> seq<real>

    /** The `user_dialogues` table. */
    var dialogues: seq<DialogueRecord>
    /** The `summary` table. */
    var summaries: seq<SummaryRecord>
    /** The `raw_text_embeddings_<user>` collection. */
    var rawIndex: seq<RawEntry>
    /** The `summary_collection_<user>` collection. */
    var summaryIndex: seq<SummaryEntry>
    /** The short-term deque, oldest item first. */
    var shortTermMemory: seq<string>
    /** The client's Milvus connection alias is registered. */
    var milvusConnected: bool

    ghost predicate Valid()
      reads this`dialogues, this`summaries, this`rawIndex, this`summaryIndex, this`shortTermMemory
    {
      ClientInvariant(dialogues, summaries, rawIndex, summaryIndex, shortTermMemory)
    }

    /** `UserClient(user_id, ...)` followed by `_create_user_databases()`, on fresh databases. */
    constructor (userId: string, embed: string -> seq<real>)
      ensures Valid()
      ensures this.userId == userId && this.embed == embed
      ensures dialogues == [] && summaries == [] && rawIndex == [] && summaryIndex == []
      ensures shortTermMemory == [] && milvusConnected
    {
      this.userId := userId;
      this.embed := embed;
      dialogues := [];
      summaries := [];
      rawIndex := [];
      summaryIndex := [];
      shortTermMemory := [];
      milvusConnected := true;
    }

    /** The clock reading `now` is no earlier than the newest dialogue. */
    predicate ClockAfterLog(now: int)
      reads this
    {
      dialogues == [] || dialogues[|dialogues| - 1].time <= now
    }

    /** `close`: the client's Milvus alias is removed. */
    method Close()
      modifies this`milvusConnected
      ensures !milvusConnected
    {
      milvusConnected := false;
    }

    /** `_insert_raw_dialogue_to_sql`: appends one row stamped `now` and returns its new id. */
    method InsertRawDialogueToSql(role: string, text: string, now: int) returns (id: int)
      modifies this`dialogues
      ensures id == |old(dialogues)| + 1
      ensures dialogues == old(dialogues) + [DialogueRecord(id, now, role, text)]
    {
      id := |dialogues| + 1;
      dialogues := dialogues + [DialogueRecord(id, now, role, text)];
    }

    /** `_insert_to_milvus_raw_text`: adds one entry, unless the insert fails because the
        connection is gone. */
    method InsertToMilvusRawText(id: int, embedding: seq<real>)
      modifies this`rawIndex
      ensures rawIndex == old(rawIndex) + (if milvusConnected then [RawEntry(id, embedding)] else [])
    {
      if milvusConnected {
        rawIndex := rawIndex + [RawEntry(id, embedding)];
      }
    }

    /** `_insert_summary_to_sql`: appends one summary row and returns its new id. */
    method InsertSummaryToSql(startTime: int, endTime: int, summaryText: string) returns (id: int)
      modifies this`summaries
      ensures id == |old(summaries)| + 1
      ensures summaries == old(summaries) + [SummaryRecord(id, startTime, endTime, summaryText)]
    {
      id := |summaries| + 1;
      summaries := summaries + [SummaryRecord(id, startTime, endTime, summaryText)];
    }

    /** `_insert_to_milvus_summary`: embeds the summary text and adds one entry, unless the insert
        fails because the connection is gone. */
    method InsertToMilvusSummary(id: int, startTime: int, endTime: int, summaryText: string)
      modifies this`summaryIndex
      ensures summaryIndex == old(summaryIndex) +
        (if milvusConnected then [SummaryEntry(id, embed(summaryText), startTime, endTime, summaryText)] else [])
    {
      if milvusConnected {
        summaryIndex := summaryIndex + [SummaryEntry(id, embed(summaryText), startTime, endTime, summaryText)];
      }
    }

    /** `_retrieve_latest_dialogues_from_sql`: the `count` newest dialogues, newest first. While
        the clock has never gone backwards they are exactly the last `count` rows, reversed. */
    method RetrieveLatestDialoguesFromSql(count: int) returns (rows: seq<DialogueRecord>)
      ensures rows == LatestDialogues(dialogues, count)
      ensures count >= 0 ==> |rows| == Min(count, |dialogues|)
      ensures count < 0 ==> |rows| == |dialogues|
      ensures SubBag(rows, dialogues)
      ensures forall i, j :: 0 <= i < j < |rows| ==> rows[i].time >= rows[j].time
      ensures forall x, j :: x in dialogues && x !in rows && 0 <= j < |rows| ==> x.time <= rows[j].time
      ensures NonDecreasing(dialogues, Time) && count >= 0 ==>
        rows == Reverse(dialogues[|dialogues| - Min(count, |dialogues|)..])
    {
      rows := LatestDialogues(dialogues, count);
      LatestDialoguesSpec(dialogues, count);
      if NonDecreasing(dialogues, Time) && count >= 0 {
        LatestOfNonDecreasing(dialogues, count);
      }
    }

    /** `_retrieve_summary_from_sql`: the `count` latest summaries by `end_time`, latest first,
        among those ending at or before `maxEndTime` when it is given. */
    method RetrieveSummaryFromSql(maxEndTime: Option<int>, count: int) returns (rows: seq<SummaryRecord>)
      ensures rows == RetrieveSummaries(summaries, maxEndTime, count)
      ensures count >= 0 ==> |rows| == Min(count, |Qualifying(summaries, maxEndTime)|)
      ensures count < 0 ==> |rows| == |Qualifying(summaries, maxEndTime)|
      ensures SubBag(rows, summaries)
      ensures forall i, j :: 0 <= i < j < |rows| ==> rows[i].endTime >= rows[j].endTime
      ensures maxEndTime.Some? ==> forall x :: x in rows ==> x.endTime <= maxEndTime.value
      ensures forall x, j :: x in Qualifying(summaries, maxEndTime) && x !in rows && 0 <= j < |rows| ==>
        x.endTime <= rows[j].endTime
    {
      rows := RetrieveSummaries(summaries, maxEndTime, count);
      RetrieveSummariesSpec(summaries, maxEndTime, count);
    }

    /** `insert_record`. A record without a non-empty role and text changes nothing. Otherwise
        one dialogue row with the next id is appended, its text pushed onto the short-term
        buffer, and one raw-context entry keyed by the new id is added holding the embedding
        of the context window (the latest five texts, newest first). */
    method InsertRecord(record: map<string, string>, now: int)
      requires Valid() && ClockAfterLog(now)
      modifies this`dialogues, this`shortTermMemory, this`rawIndex
      ensures Valid()
      ensures !Accepts(record) ==>
        dialogues == old(dialogues) && shortTermMemory == old(shortTermMemory) && rawIndex == old(rawIndex)
      ensures Accepts(record) ==>
        var id := |old(dialogues)| + 1;
        && dialogues == old(dialogues) + [DialogueRecord(id, now, record["role"], record["text"])]
        && shortTermMemory == Push(old(shortTermMemory), record["text"])
        && rawIndex == old(rawIndex) + (if milvusConnected then [RawEntry(id, embed(ContextWindow(dialogues)))] else [])
    {
      if !("role" in record && record["role"] != "" && "text" in record && record["text"] != "") {
        return;
      }
      var role, text := record["role"], record["text"];
      ghost var ds, buffer, raw := dialogues, shortTermMemory, rawIndex;
      var id := InsertRawDialogueToSql(role, text, now);
      var d := DialogueRecord(id, now, role, text);
      shortTermMemory := Push(shortTermMemory, text);
      assert dialogues == ds + [d];
      var window := Join(Texts(LatestDialogues(dialogues, ContextWindowSize)), " ");
      assert window == ContextWindow(dialogues);
      DialogueLogSnoc(ds, d);
      ContextWindowNonEmpty(ds, d);
      ghost var added := if milvusConnected then [RawEntry(id, embed(window))] else [];
      if window != "" {
        InsertToMilvusRawText(id, embed(window));
      }
      assert rawIndex == raw + added;
      InsertKeepsInvariant(ds, summaries, raw, summaryIndex, buffer, d, added);
    }

    /** `summarize_memory`: when some dialogue is newer than the watermark, adds the summary
        `NextSummary` describes to the table and its embedding to the summary collection. */
    method SummarizeMemory()
      requires Valid()
      modifies this`summaries, this`summaryIndex
      ensures Valid()
      ensures NextSummary(old(dialogues), old(summaries)).None? ==>
        summaries == old(summaries) && summaryIndex == old(summaryIndex)
      ensures NextSummary(old(dialogues), old(summaries)).Some? ==>
        var s := NextSummary(old(dialogues), old(summaries)).value;
        && summaries == old(summaries) + [s]
        && summaryIndex == old(summaryIndex) +
          (if milvusConnected then [SummaryEntry(s.id, embed(s.summaryText), s.startTime, s.endTime, s.summaryText)] else [])
      ensures NextSummary(dialogues, summaries).None?
    {
      var next := PendingSummary();
      if next.Some? {
        StoreSummary(next.value);
      }
    }

    /** The inserts at the tail of `summarize_memory`: the summary row, then its embedding. */
    method StoreSummary(s: SummaryRecord)
      requires Valid() && s.id == |summaries| + 1 && SummaryLog(summaries + [s])
      modifies this`summaries, this`summaryIndex
      ensures Valid()
      ensures summaries == old(summaries) + [s]
      ensures summaryIndex == old(summaryIndex) +
        (if milvusConnected then [SummaryEntry(s.id, embed(s.summaryText), s.startTime, s.endTime, s.summaryText)] else [])
    {
      ghost var ss, sidx := summaries, summaryIndex;
      var id := InsertSummaryToSql(s.startTime, s.endTime, s.summaryText);
      assert summaries == ss + [s];
      ghost var added := if milvusConnected then [SummaryEntry(id, embed(s.summaryText), s.startTime, s.endTime, s.summaryText)] else [];
      InsertToMilvusSummary(id, s.startTime, s.endTime, s.summaryText);
      assert summaryIndex == sidx + added;
      StoreKeepsInvariant(dialogues, ss, s, rawIndex, sidx, shortTermMemory, added);
    }

    /** The queries at the head of `summarize_memory`: the watermark, the dialogues newer than
        it and the summary of their texts, with the next id. */
    method PendingSummary() returns (next: Option<SummaryRecord>)
      requires Valid()
      ensures next == NextSummary(dialogues, summaries)
      ensures next.Some? ==> next.value.id == |summaries| + 1 && SummaryLog(summaries + [next.value])
      ensures next.Some? ==> NextSummary(dialogues, summaries + [next.value]).None?
    {
      var latest := RetrieveSummaries(summaries, None, 1);
      var maxEndTime := if latest != [] then latest[0].endTime else 0;
      var pending := NewDialogues(dialogues, maxEndTime);
      if pending == [] {
        return None;
      }
      var summarized := SummarizePlaceholder(Join(Texts(pending), " "));
      next := Some(SummaryRecord(|summaries| + 1, pending[0].time, pending[|pending| - 1].time, summarized));
      NextSummaryKeepsLog(dialogues, summaries);
      SummarizeTwiceIsNoOp(dialogues, summaries);
    }

    /** The hits of a raw-context search; a search fails (and yields nothing) once the
        connection is gone. */
    function SearchRaw(search: RawSearch, vector: seq<real>, topK: int): seq<Hit<RawEntry>>
      reads this
    {
      if milvusConnected then search(rawIndex, vector, topK) else []
    }

    function SearchSummary(search: SummarySearch, vector: seq<real>, topK: int): seq<Hit<SummaryEntry>>
      reads this
    {
      if milvusConnected then search(summaryIndex, vector, topK) else []
    }

    /** `_query_milvus_raw_text`: the dialogues named by the search hits. */
    method QueryMilvusRawText(vector: seq<real>, topK: int, search: RawSearch) returns (results: seq<Retrieved>)
      ensures results == ResolveRawHits(dialogues, SearchRaw(search, vector, topK))
    {
      var hits := SearchRaw(search, vector, topK);
      var ds := dialogues;
      results := [];
      var i := 0;
      while i < |hits|
        invariant 0 <= i <= |hits|
        invariant results == ResolveRawHits(ds, hits[..i])
      {
        var hit := hits[i];
        var row := FindById(ds, hit.entry.id);
        assert hits[..i + 1] == hits[..i] + [hit];
        ResolveRawHitsSnoc(ds, hits[..i], hit);
        if row.Some? {
          results := results + [Dialogue(hit.entry.id, row.value.text, hit.distance)];
        }
        i := i + 1;
      }
      assert hits[..|hits|] == hits;
    }

    /** `_query_milvus_summary`: one result per search hit. */
    method QueryMilvusSummary(vector: seq<real>, topK: int, search: SummarySearch) returns (results: seq<Retrieved>)
      ensures results == SummaryResults(SearchSummary(search, vector, topK))
    {
      var hits := SearchSummary(search, vector, topK);
      results := [];
      var i := 0;
      while i < |hits|
        invariant 0 <= i <= |hits|
        invariant results == SummaryResults(hits[..i])
      {
        var h := hits[i];
        assert hits[..i + 1][..i] == hits[..i];
        results := results + [Summary(h.entry.id, h.entry.summaryText, h.entry.startTime, h.entry.endTime, h.distance)];
        i := i + 1;
      }
      assert hits[..|hits|] == hits;
    }

    /** The raw results before any rerank, by route. */
    function RawCandidates(route: Route, topK: int, search: RawSearch): seq<Retrieved>
      reads this
    {
      match route
      case Unsupported => []
      case VectorRoute(v) => ResolveRawHits(dialogues, SearchRaw(search, v, topK))
      case ContextRoute(t) => ResolveRawHits(dialogues, SearchRaw(search, embed(t), topK))
      case SentenceRoute(t) =>
        match FindByText(dialogues, t)
        case Some(m) => KeepId(ResolveRawHits(dialogues, SearchRaw(search, embed(t), topK)), m.id)
        case None => ResolveRawHits(dialogues, SearchRaw(search, embed(FallbackContext(dialogues, t)), topK))
    }

    /** What `query_raw_memory` returns. */
    function RawQuery(q: QueryData, topK: int, search: RawSearch, rerank: Reranker): seq<Retrieved>
      requires RawSearchWellFormed(search) && RerankerWellFormed(rerank)
      reads this
    {
      var route := Classify(q);
      MaybeRerank(QueryText(route), topK, RawCandidates(route, topK, search), rerank)
    }

    /** What `query_summary_memory` returns. */
    function SummaryQuery(q: QueryData, topK: int, search: SummarySearch, rerank: Reranker): seq<Retrieved>
      requires SummarySearchWellFormed(search) && RerankerWellFormed(rerank)
      reads this
    {
      var route := Classify(q);
      var candidates := match route
        case Unsupported => []
        case VectorRoute(v) => SummaryResults(SearchSummary(search, v, topK))
        case ContextRoute(t) => SummaryResults(SearchSummary(search, embed(t), topK))
        case SentenceRoute(t) => SummaryResults(SearchSummary(search, embed(t), topK));
      MaybeRerank(QueryText(route), topK, candidates, rerank)
    }

    /** Every raw candidate names a stored dialogue and carries its text. */
    lemma RawCandidatesFromLog(route: Route, topK: int, search: RawSearch)
      ensures forall y :: y in RawCandidates(route, topK, search) ==>
        y.Dialogue? && exists d :: d in dialogues && d.id == y.id && d.text == y.text
    {
      var ds := dialogues;
      if route.SentenceRoute? && FindByText(ds, route.queryText).Some? {
        var m := FindByText(ds, route.queryText).value;
        var r := ResolveRawHits(ds, SearchRaw(search, embed(route.queryText), topK));
        assert RawCandidates(route, topK, search) == KeepId(r, m.id);
      }
    }

    /** Every raw candidate was found through a stored raw-context entry with its id. */
    lemma RawCandidatesFromIndex(route: Route, topK: int, search: RawSearch)
      requires RawSearchWellFormed(search)
      ensures forall y :: y in RawCandidates(route, topK, search) ==> exists e :: e in rawIndex && e.id == y.id
    {
      var ds := dialogues;
      var v := match route
        case VectorRoute(v) => v
        case ContextRoute(t) => embed(t)
        case SentenceRoute(t) => if FindByText(ds, t).Some? then embed(t) else embed(FallbackContext(ds, t))
        case Unsupported => [];
      var hits := SearchRaw(search, v, topK);
      assert forall h :: h in hits ==> h.entry in rawIndex;
      ResolveRawHitsFromIndex(ds, hits, rawIndex);
    }

    /** Every raw result names a stored dialogue and carries its text, and its id keys a stored
        raw-context entry; an exact-match sentence keeps only the matched dialogue; unsupported
        shapes give nothing; vector queries and `top_k <= 1` are never reranked. */
    lemma RawQuerySpec(q: QueryData, topK: int, search: RawSearch, rerank: Reranker)
      requires RawSearchWellFormed(search) && RerankerWellFormed(rerank)
      ensures forall x :: x in RawQuery(q, topK, search, rerank) ==>
        x.Dialogue? && exists d :: d in dialogues && d.id == x.id && d.text == x.text
      ensures forall x :: x in RawQuery(q, topK, search, rerank) ==> exists e :: e in rawIndex && e.id == x.id
      ensures Classify(q).Unsupported? ==> RawQuery(q, topK, search, rerank) == []
      ensures Classify(q).VectorRoute? || topK <= 1 ==>
        RawQuery(q, topK, search, rerank) == RawCandidates(Classify(q), topK, search)
      ensures q.TextQuery? && FindByText(dialogues, q.text).Some? ==>
        forall x :: x in RawQuery(q, topK, search, rerank) ==> x.id == FindByText(dialogues, q.text).value.id
    {
      var route := Classify(q);
      var c := RawCandidates(route, topK, search);
      MaybeRerankSpec(QueryText(route), topK, c, rerank);
      RawCandidatesFromLog(route, topK, search);
      RawCandidatesFromIndex(route, topK, search);
    }

    /** Every summary result carries the id, range and text of a stored summary entry, and so,
        while the client is valid, of a summary row; it comes from one of the search hits;
        unsupported shapes give nothing; vector queries, empty sentences and `top_k <= 1` are
        never reranked. */
    lemma SummaryQuerySpec(q: QueryData, topK: int, search: SummarySearch, rerank: Reranker)
      requires SummarySearchWellFormed(search) && RerankerWellFormed(rerank)
      ensures forall x :: x in SummaryQuery(q, topK, search, rerank) ==> exists e :: e in summaryIndex && Carries(x, e)
      ensures Valid() ==> forall x :: x in SummaryQuery(q, topK, search, rerank) ==>
        exists s :: s in summaries && Reports(x, s)
      ensures Classify(q).Unsupported? ==> SummaryQuery(q, topK, search, rerank) == []
      ensures Classify(q).VectorRoute? || (topK <= 1 && !Classify(q).Unsupported?) ==>
        SummaryQuery(q, topK, search, rerank) == SummaryResults(SearchSummary(search, QueryVector(q), topK))
      ensures q.TextQuery? && (q.text == "" || topK <= 1) ==>
        SummaryQuery(q, topK, search, rerank) == SummaryResults(SearchSummary(search, embed(q.text), topK))
      ensures forall x :: x in SummaryQuery(q, topK, search, rerank) ==>
        exists h :: h in SearchSummary(search, QueryVector(q), topK) && h.entry.id == x.id && h.entry.summaryText == x.text
    {
      var route := Classify(q);
      if !route.Unsupported? {
        var hits := SearchSummary(search, QueryVector(q), topK);
        var c := SummaryResults(hits);
        assert SummaryQuery(q, topK, search, rerank) == MaybeRerank(QueryText(route), topK, c, rerank);
        MaybeRerankSpec(QueryText(route), topK, c, rerank);
        SummaryResultsFromHits(hits);
      }
      SummaryQueryFromLog(q, topK, search, rerank);
    }

    /** While the client is valid, every summary result reports a summary row. */
    lemma SummaryQueryFromLog(q: QueryData, topK: int, search: SummarySearch, rerank: Reranker)
      requires SummarySearchWellFormed(search) && RerankerWellFormed(rerank)
      ensures forall x :: x in SummaryQuery(q, topK, search, rerank) ==> exists e :: e in summaryIndex && Carries(x, e)
      ensures Valid() ==> forall x :: x in SummaryQuery(q, topK, search, rerank) ==>
        exists s :: s in summaries && Reports(x, s)
    {
      SummaryQueryFromIndex(q, topK, search, rerank);
      if Valid() {
        CarriedAreRows(SummaryQuery(q, topK, search, rerank), summaryIndex, summaries);
      }
    }

    /** Every summary result carries the id, range and text of a stored summary entry. */
    lemma SummaryQueryFromIndex(q: QueryData, topK: int, search: SummarySearch, rerank: Reranker)
      requires SummarySearchWellFormed(search) && RerankerWellFormed(rerank)
      ensures forall x :: x in SummaryQuery(q, topK, search, rerank) ==> exists e :: e in summaryIndex && Carries(x, e)
    {
      var route := Classify(q);
      if !route.Unsupported? {
        var hits := SearchSummary(search, QueryVector(q), topK);
        var c := SummaryResults(hits);
        assert SummaryQuery(q, topK, search, rerank) == MaybeRerank(QueryText(route), topK, c, rerank);
        MaybeRerankSpec(QueryText(route), topK, c, rerank);
        assert forall h :: h in hits ==> h.entry in summaryIndex;
        SummaryResultsFromIndex(hits, summaryIndex);
        RescoredCarries(c, SummaryQuery(q, topK, search, rerank), summaryIndex);
      }
    }

    /** The vector a supported summary query searches with. */
    function QueryVector(q: QueryData): seq<real>
      reads this
    {
      match Classify(q)
      case VectorRoute(v) => v
      case ContextRoute(t) => embed(t)
      case SentenceRoute(t) => embed(t)
      case Unsupported => []
    }

    /** `query_raw_memory`. */
    method QueryRawMemory(q: QueryData, topK: int, search: RawSearch, rerank: Reranker) returns (results: seq<Retrieved>)
      requires RawSearchWellFormed(search) && RerankerWellFormed(rerank)
      ensures results == RawQuery(q, topK, search, rerank)
      ensures forall x :: x in results ==> exists e :: e in rawIndex && e.id == x.id
    {
      var queryText: Option<string> := None;
      match q {
        case ListQuery(items) =>
          if AllFloats(items) {
            results := QueryMilvusRawText(Floats(items), topK, search);
          } else if AllStrings(items) {
            var t := Join(Strs(items), " ");
            queryText := Some(t);
            results := QueryMilvusRawText(embed(t), topK, search);
          } else {
            return [];
          }
        case TextQuery(t) =>
          queryText := Some(t);
          var matched := FindByText(dialogues, t);
          if matched.Some? {
            results := QueryMilvusRawText(embed(t), topK, search);
            results := KeepId(results, matched.value.id);
          } else {
            var context := Join(Texts(LatestDialogues(dialogues, FallbackWindowSize)) + [t], " ");
            results := QueryMilvusRawText(embed(context), topK, search);
          }
        case OtherQuery =>
          return [];
      }
      if queryText.Some? && queryText.value != "" && topK > 1 && results != [] {
        var ranked := rerank(queryText.value, DocTexts(results), topK);
        results := ApplyRerank(results, ranked);
      }
      RawQuerySpec(q, topK, search, rerank);
    }

    /** `query_summary_memory`. */
    method QuerySummaryMemory(q: QueryData, topK: int, search: SummarySearch, rerank: Reranker) returns (results: seq<Retrieved>)
      requires SummarySearchWellFormed(search) && RerankerWellFormed(rerank)
      ensures results == SummaryQuery(q, topK, search, rerank)
      ensures forall x :: x in results ==> exists e :: e in summaryIndex && Carries(x, e)
    {
      var queryText: Option<string> := None;
      match q {
        case ListQuery(items) =>
          if AllFloats(items) {
            results := QueryMilvusSummary(Floats(items), topK, search);
          } else if AllStrings(items) {
            var t := Join(Strs(items), " ");
            queryText := Some(t);
            results := QueryMilvusSummary(embed(t), topK, search);
          } else {
            return [];
          }
        case TextQuery(t) =>
          queryText := Some(t);
          results := QueryMilvusSummary(embed(t), topK, search);
        case OtherQuery =>
          return [];
      }
      if queryText.Some? && queryText.value != "" && topK > 1 && results != [] {
        var ranked := rerank(queryText.value, DocTexts(results), topK);
        results := ApplyRerank(results, ranked);
      }
      SummaryQueryFromIndex(q, topK, search, rerank);
    }
  }

  /** The rerank loop of both query operations: the results rebuilt in the reranker's order, each
      with distance `1 - score`. */
  method ApplyRerank(results: seq<Retrieved>, ranked: seq<RerankHit>) returns (final: seq<Retrieved>)
    requires RankingWellFormed(ranked, |results|)
    ensures final == Reranked(results, ranked)
  {
    final := [];
    var i := 0;
    while i < |ranked|
      invariant 0 <= i <= |ranked|
      invariant final == Reranked(results, ranked[..i])
    {
      var r := ranked[i];
      assert ranked[..i + 1][..i] == ranked[..i];
      final := final + [results[r.index].(distance := 1.0 - r.score)];
      i := i + 1;
    }
    assert ranked[..|ranked|] == ranked;
  }

  /** The registry of user clients (`MemoryModule`). */
  class MemoryModule {
    /** The embedding model every client is given. */
    const embed: string -> seq<real>
    var userClients: map<string, UserClient>

    ghost predicate Valid()
      reads this, userClients.Values
    {
      forall u :: u in userClients ==> userClients[u].userId == u && userClients[u].Valid()
    }

    constructor (embed: string -> seq<real>)
      ensures Valid() && this.embed == embed && userClients == map[]
    {
      this.embed := embed;
      userClients := map[];
    }

    /** `start_user_client_instance`: the registered client when there is one; otherwise a new
        client on fresh databases, registered under `userId`. */
    method StartUserClientInstance(userId: string) returns (client: UserClient)
      requires Valid()
      modifies this
      ensures Valid()
      ensures old(userId in userClients) ==> client == old(userClients[userId]) && userClients == old(userClients)
      ensures old(userId !in userClients) ==> fresh(client) && userClients == old(userClients)[userId := client]
      ensures old(userId !in userClients) ==> client.userId == userId && client.embed == embed
      ensures old(userId !in userClients) ==> client.dialogues == [] && client.summaries == []
    {
      if userId in userClients {
        client := userClients[userId];
      } else {
        client := new UserClient(userId, embed);
        userClients := userClients[userId := client];
      }
    }

    /** `close_user_client_instance`: closes and unregisters the client of `userId`; nothing
        happens for an unknown id. */
    method CloseUserClientInstance(userId: string)
      modifies this, if userId in userClients then {userClients[userId]} else {}
      ensures old(Valid()) ==> Valid()
      ensures userClients == old(userClients) - {userId}
      ensures userId in old(userClients) ==> !old(userClients[userId]).milvusConnected
    {
      if userId in userClients {
        var client := userClients[userId];
        client.Close();
        userClients := userClients - {userId};
        if old(Valid()) {
          // closing touches only the connection flag, which no client invariant reads
          forall u | u in userClients
            ensures userClients[u].userId == u && userClients[u].Valid()
          {
            var c: UserClient := userClients[u];
            assert c == old(userClients)[u] && old(c.Valid());
            assert unchanged(c`dialogues, c`summaries, c`rawIndex, c`summaryIndex, c`shortTermMemory);
          }
        }
      }
    }

    /** `get_user_client`. */
    function GetUserClient(userId: string): (c: Option<UserClient>)
      reads this
      ensures c.Some? <==> userId in userClients
      ensures c.Some? ==> c.value == userClients[userId]
    {
      if userId in userClients then Some(userClients[userId]) else None
    }

    /** `shutdown`: closes and unregisters every client. */
    method Shutdown()
      modifies this, userClients.Values
      ensures Valid() && userClients == map[]
      ensures forall c :: c in old(userClients.Values) ==> !c.milvusConnected
    {
      var users := userClients.Keys;
      ghost var closed: set<UserClient> := {};
      while users != {}
        invariant userClients.Keys == users
        invariant forall u :: u in userClients ==> u in old(userClients) && userClients[u] == old(userClients)[u]
        invariant forall u :: u in old(userClients) ==> u in userClients || old(userClients)[u] in closed
        invariant forall c :: c in closed ==> !c.milvusConnected
        decreases users
      {
        var u :| u in users;
        ghost var client := userClients[u];
        CloseUserClientInstance(u);
        closed := closed + {client};
        users := users - {u};
      }
    }
  }
}
