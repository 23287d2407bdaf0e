/** The relay's response writer: streams the upstream response to the browser, except that
    small HTML pages are held back, injected into and sent whole. */
module ResponseWriter {
  import opened Sequences
  import opened Bytes
  import opened Options
  import opened Utf8
  import opened ConsoleAdapt

  type Headers = map<string, string>

  const HTML_BUFFER_CAP := 262_144

  /** What is done to the raw response. */
  datatype RawOp = WriteHead(status: int, headers: Headers) | Write(chunk: seq<byte>) | End(last: seq<byte>)

  /** What the writer knows of its request: the method, and the mobile layer the path asks for. */
  datatype Page = Page(isGet: bool, adaptEnabled: bool, layer: string)

  datatype Writer = Writer(
    htmlBuf: Option<string>, // None while streaming
    pendingStatus: int,
    pendingHeaders: Option<Headers>,
    headersSent: bool,
    ops: seq<RawOp>)

  const READY := Writer(None, 0, None, false, [])

  function Lower(s: string): string {
    if s == "" then "" else [if 'A' <= s[0] <= 'Z' then (s[0] as int + 32) as char else s[0]] + Lower(s[1..])
  }

  function Get(h: Headers, k: string): string {
    if k in h then h[k] else ""
  }

  predicate IsHtmlForInjection(page: Page, status: int, headers: Headers) {
    && page.isGet
    && "text/html" <= Lower(Get(headers, "content-type"))
    && (Lower(Get(headers, "content-encoding")) == "" || Lower(Get(headers, "content-encoding")) == "identity")
    && 200 <= status < 300
  }

  function HopHeadersDropped(headers: Headers): Headers {
    headers - {"content-length", "transfer-encoding", "connection"}
  }

  function NeverCached(headers: Headers): Headers {
    headers["cache-control" := "no-store"] - {"etag", "last-modified"}
  }

  const JSON_TYPE: Headers := map["content-type" := "application/json"]

  function Head(w: Writer, status: int, headers: Headers): Writer {
    w.(headersSent := true, ops := w.ops + [WriteHead(status, headers)])
  }

  /** Writing a chunk sends the head implicitly. */
  function Body(w: Writer, chunk: seq<byte>): Writer {
    w.(headersSent := true, ops := w.ops + [Write(chunk)])
  }

  function OnResponse(page: Page, w: Writer, status: int, headers: Headers): Writer {
    if IsHtmlForInjection(page, status, headers) then
      w.(htmlBuf := Some(""), pendingStatus := status, pendingHeaders := Some(HopHeadersDropped(headers)))
    else Head(w, status, HopHeadersDropped(headers))
  }

  predicate Overflows(buffered: string, chunk: seq<byte>) {
    Utf16Length(buffered) + |chunk| > HTML_BUFFER_CAP
  }

  function OnData(w: Writer, chunk: seq<byte>): Writer {
    if w.htmlBuf.None? then Body(w, chunk)
    else if Overflows(w.htmlBuf.value, chunk) then
      var headed := if !w.headersSent && w.pendingHeaders.Some? then Head(w, w.pendingStatus, w.pendingHeaders.value) else w;
      var flushed := Body(headed.(pendingHeaders := None), Encode(w.htmlBuf.value));
      Body(flushed.(htmlBuf := None), chunk)
    else w.(htmlBuf := Some(w.htmlBuf.value + Decode(chunk)))
  }

  function OnEnd(page: Page, w: Writer): Writer {
    if w.htmlBuf.Some? then
      var text := Inject(w.htmlBuf.value, page.adaptEnabled, page.layer);
      var headed :=
        if !w.headersSent && w.pendingHeaders.Some? then Head(w, w.pendingStatus, NeverCached(w.pendingHeaders.value)) else w;
      headed.(pendingHeaders := None, htmlBuf := None, ops := headed.ops + [End(Encode(text))])
    else
      var headed := if !w.headersSent then Head(w, 200, JSON_TYPE) else w;
      headed.(ops := headed.ops + [End([])])
  }

  /** `failure` is the JSON that names the error. */
  function OnError(w: Writer, failure: seq<byte>): Writer {
    if w.headersSent then w.(ops := w.ops + [End([])])
    else
      var headed := Head(w, 502, JSON_TYPE);
      headed.(ops := headed.ops + [End(failure)])
  }

  function OnDatas(w: Writer, chunks: seq<seq<byte>>): Writer
    decreases chunks
  {
    if chunks == [] then w else OnDatas(OnData(w, chunks[0]), chunks[1..])
  }

  // ---- what the browser sees --------------------------------------------------

  /** The bytes of a stretch of operations. */
  function Sent(ops: seq<RawOp>): seq<byte> {
    if ops == [] then []
    else (match ops[0] case WriteHead(_, _) => [] case Write(chunk) => chunk case End(last) => last) + Sent(ops[1..])
  }

  /** One head, then writes, then one end: and nothing else. */
  predicate Proper(ops: seq<RawOp>, status: int, headers: Headers) {
    && |ops| >= 2 && ops[0] == WriteHead(status, headers)
    && ops[|ops| - 1].End?
    && forall i :: 0 < i < |ops| - 1 ==> ops[i].Write?
  }

  lemma {:induction false} SentConcat(a: seq<RawOp>, b: seq<RawOp>)
    ensures Sent(a + b) == Sent(a) + Sent(b)
  {
    if a == [] {
      assert a + b == b;
    } else {
      assert (a + b)[1..] == a[1..] + b;
      SentConcat(a[1..], b);
    }
  }

  /** The text of chunks decoded one by one. */
  function Text(chunks: seq<seq<byte>>): string {
    if chunks == [] then "" else Decode(chunks[0]) + Text(chunks[1..])
  }

  /** How many chunks fit the buffer before one overflows it; all of them if none does. */
  function Fits(buffered: string, chunks: seq<seq<byte>>): (n: nat)
    ensures n <= |chunks|
    decreases chunks
  {
    if chunks == [] || Overflows(buffered, chunks[0]) then 0
    else 1 + Fits(buffered + Decode(chunks[0]), chunks[1..])
  }

  predicate AllValid(chunks: seq<seq<byte>>) {
    forall i :: 0 <= i < |chunks| ==> Valid(chunks[i])
  }

  /** Started: the head is out and only writes follow. */
  predicate Streaming(w: Writer, status: int, headers: Headers) {
    && w.htmlBuf.None? && w.headersSent
    && w.ops != [] && w.ops[0] == WriteHead(status, headers)
    && forall i :: 0 < i < |w.ops| ==> w.ops[i].Write?
  }

  predicate Holding(w: Writer, status: int, headers: Headers, text: string) {
    w == Writer(Some(text), status, Some(headers), false, [])
  }

  lemma {:induction false} StreamingRun(w: Writer, chunks: seq<seq<byte>>, status: int, headers: Headers)
    requires Streaming(w, status, headers)
    ensures Streaming(OnDatas(w, chunks), status, headers)
    ensures Sent(OnDatas(w, chunks).ops) == Sent(w.ops) + Flat(chunks)
    decreases chunks
  {
    if chunks != [] {
      var w' := OnData(w, chunks[0]);
      SentConcat(w.ops, [Write(chunks[0])]);
      assert Sent([Write(chunks[0])]) == chunks[0] + Sent([]);
      StreamingRun(w', chunks[1..], status, headers);
    }
  }

  /** A held page stays held while it fits; once a chunk overflows it, everything is streamed. */
  lemma {:induction false} HoldingRun(w: Writer, chunks: seq<seq<byte>>, status: int, headers: Headers, text: string)
    requires Holding(w, status, headers, text)
    ensures var n, w' := Fits(text, chunks), OnDatas(w, chunks);
            if n == |chunks| then Holding(w', status, headers, text + Text(chunks))
            else Overran(w', status, headers, text + Text(chunks[..n]), Flat(chunks[n..]))
    decreases chunks
  {
    if chunks == [] {
      assert text + "" == text;
    } else if Overflows(text, chunks[0]) {
      HoldingOverflows(w, chunks[0], chunks[1..], status, headers, text);
      assert chunks[..0] == [] && chunks[0..] == chunks && text + "" == text;
    } else {
      var n := Fits(text, chunks);
      HoldingRun(OnData(w, chunks[0]), chunks[1..], status, headers, text + Decode(chunks[0]));
      assert chunks[..n][1..] == chunks[1..][..n - 1] && chunks[n..] == chunks[1..][n - 1..];
      Grouped(text, Decode(chunks[0]), Text(chunks[1..]));
      Grouped(text, Decode(chunks[0]), Text(chunks[1..][..n - 1]));
    }
  }

  /** Streaming after all: what was held, re-encoded, then the chunks since. */
  predicate Overran(w: Writer, status: int, headers: Headers, held: string, since: seq<byte>) {
    Streaming(w, status, headers) && Sent(w.ops) == Encode(held) + since
  }

  lemma HoldingOverflows(
    w: Writer, chunk: seq<byte>, more: seq<seq<byte>>, status: int, headers: Headers, text: string)
    requires Holding(w, status, headers, text) && Overflows(text, chunk)
    ensures Overran(OnDatas(OnData(w, chunk), more), status, headers, text, chunk + Flat(more))
  {
    Flushed(w, chunk, status, headers, text);
    StreamingRun(OnData(w, chunk), more, status, headers);
    Grouped(Encode(text), chunk, Flat(more));
  }

  lemma Flushed(w: Writer, chunk: seq<byte>, status: int, headers: Headers, text: string)
    requires Holding(w, status, headers, text) && Overflows(text, chunk)
    ensures Overran(OnData(w, chunk), status, headers, text, chunk)
  {
    assert OnData(w, chunk).ops == [WriteHead(status, headers), Write(Encode(text)), Write(chunk)];
    OverflowSent(status, headers, Encode(text), chunk);
  }

  lemma OverflowSent(status: int, headers: Headers, a: seq<byte>, b: seq<byte>)
    ensures Sent([WriteHead(status, headers), Write(a), Write(b)]) == a + b
  {
    assert [WriteHead(status, headers), Write(a), Write(b)][1..] == [Write(a), Write(b)];
    assert [Write(a), Write(b)][1..] == [Write(b)];
    assert Sent([Write(b)]) == b + Sent([]);
  }

  // ---- re-encoding what was decoded -------------------------------------------

  /** Text decoded chunk by chunk encodes back to the very bytes exactly when each chunk is
      well-formed on its own. */
  lemma {:induction false} ReencodesExactly(chunks: seq<seq<byte>>)
    ensures |Encode(Text(chunks))| >= |Flat(chunks)|
    ensures Encode(Text(chunks)) == Flat(chunks) <==> AllValid(chunks)
  {
    if chunks != [] {
      var c, rest := chunks[0], chunks[1..];
      EncodeConcat(Decode(c), Text(rest));
      DecodingNeverShrinks(c);
      ReencodesExactly(rest);
      SplitsAlike(Encode(Decode(c)), Encode(Text(rest)), c, Flat(rest));
    }
  }

  lemma SplitsAlike(a: seq<byte>, b: seq<byte>, x: seq<byte>, y: seq<byte>)
    requires |a| >= |x| && |b| >= |y|
    ensures a + b == x + y <==> a == x && b == y
  {
    if a + b == x + y {
      assert |a| == |x|;
      assert a == (a + b)[..|a|] && x == (x + y)[..|x|];
      assert b == (a + b)[|a|..] && y == (x + y)[|x|..];
    }
  }

  // ---- whole responses --------------------------------------------------------

  /** A response that is not an HTML page to inject: the exact bytes, however it ends. */
  lemma PlainResponse(page: Page, status: int, headers: Headers, chunks: seq<seq<byte>>, failure: seq<byte>)
    requires !IsHtmlForInjection(page, status, headers)
    ensures var w, out := OnDatas(OnResponse(page, READY, status, headers), chunks), HopHeadersDropped(headers);
            && Proper(OnEnd(page, w).ops, status, out) && Sent(OnEnd(page, w).ops) == Flat(chunks)
            && Proper(OnError(w, failure).ops, status, out) && Sent(OnError(w, failure).ops) == Flat(chunks)
  {
    var w0, out := OnResponse(page, READY, status, headers), HopHeadersDropped(headers);
    assert w0.ops == [WriteHead(status, out)] && Sent(w0.ops) == [] + Sent([]);
    StreamingRun(w0, chunks, status, out);
    EndsStreaming(page, OnDatas(w0, chunks), status, out, failure);
  }

  lemma EndsStreaming(page: Page, w: Writer, status: int, headers: Headers, failure: seq<byte>)
    requires Streaming(w, status, headers)
    ensures Proper(OnEnd(page, w).ops, status, headers) && Sent(OnEnd(page, w).ops) == Sent(w.ops)
    ensures OnError(w, failure) == OnEnd(page, w)
  {
    SentConcat(w.ops, [End([])]);
    assert Sent([End([])]) == [] + Sent([]);
  }

  /** A page that fits: sent whole at the end, never cached, with the injections at one point of its
      text; that text is the upstream's own exactly when each chunk is well-formed. */
  lemma {:induction false} HeldPage(page: Page, status: int, headers: Headers, chunks: seq<seq<byte>>, failure: seq<byte>)
    requires IsHtmlForInjection(page, status, headers) && Fits("", chunks) == |chunks|
    ensures var w, text := OnDatas(OnResponse(page, READY, status, headers), chunks), Text(chunks);
            && OnEnd(page, w).ops == [WriteHead(status, NeverCached(HopHeadersDropped(headers))),
                                      End(Encode(Inject(text, page.adaptEnabled, page.layer)))]
            && OnError(w, failure).ops == [WriteHead(502, JSON_TYPE), End(failure)]
            && (Encode(text) == Flat(chunks) <==> AllValid(chunks))
  {
    StartsHolding(page, status, headers);
    EndsHolding(page, OnResponse(page, READY, status, headers), status, HopHeadersDropped(headers), chunks, failure);
  }

  lemma StartsHolding(page: Page, status: int, headers: Headers)
    requires IsHtmlForInjection(page, status, headers)
    ensures Holding(OnResponse(page, READY, status, headers), status, HopHeadersDropped(headers), "")
  {
  }

  lemma {:induction false} EndsHolding(page: Page, w0: Writer, status: int, out: Headers, chunks: seq<seq<byte>>, failure: seq<byte>)
    requires Holding(w0, status, out, "") && Fits("", chunks) == |chunks|
    ensures var w, text := OnDatas(w0, chunks), Text(chunks);
            && OnEnd(page, w).ops == [WriteHead(status, NeverCached(out)),
                                      End(Encode(Inject(text, page.adaptEnabled, page.layer)))]
            && OnError(w, failure).ops == [WriteHead(502, JSON_TYPE), End(failure)]
            && (Encode(text) == Flat(chunks) <==> AllValid(chunks))
  {
    HoldingRun(w0, chunks, status, out, "");
    assert "" + Text(chunks) == Text(chunks);
    ReencodesExactly(chunks);
  }

  /** What a page too large to hold sends: the chunks that were held as text, the others as they are. */
  function Flushing(chunks: seq<seq<byte>>): seq<byte> {
    Encode(Text(chunks[..Fits("", chunks)])) + Flat(chunks[Fits("", chunks)..])
  }

  /** A writer that has streamed a page after all: one head, the chunks, one end, in success and in
      failure; the bytes are the upstream's own exactly when the chunks held back were well-formed. */
  ghost predicate StreamedAfterAll(
    page: Page, w: Writer, status: int, out: Headers, chunks: seq<seq<byte>>, failure: seq<byte>)
  {
    && Proper(OnEnd(page, w).ops, status, out)
    && OnError(w, failure).ops == OnEnd(page, w).ops
    && Sent(OnEnd(page, w).ops) == Flushing(chunks)
    && (Flushing(chunks) == Flat(chunks) <==> AllValid(chunks[..Fits("", chunks)]))
  }

  /** A page too large to hold is streamed after all. */
  lemma {:induction false} OversizedPage(page: Page, status: int, headers: Headers, chunks: seq<seq<byte>>, failure: seq<byte>)
    requires IsHtmlForInjection(page, status, headers) && Fits("", chunks) < |chunks|
    ensures StreamedAfterAll(page, OnDatas(OnResponse(page, READY, status, headers), chunks),
                             status, HopHeadersDropped(headers), chunks, failure)
  {
    StartsHolding(page, status, headers);
    EndsOversized(page, OnResponse(page, READY, status, headers), status, HopHeadersDropped(headers), chunks, failure);
  }

  lemma {:induction false} EndsOversized(page: Page, w0: Writer, status: int, out: Headers, chunks: seq<seq<byte>>, failure: seq<byte>)
    requires Holding(w0, status, out, "") && Fits("", chunks) < |chunks|
    ensures StreamedAfterAll(page, OnDatas(w0, chunks), status, out, chunks, failure)
  {
    var n, w := Fits("", chunks), OnDatas(w0, chunks);
    HoldingRun(w0, chunks, status, out, "");
    EndsStreaming(page, w, status, out, failure);
    PrefixReencodes(chunks, n);
    assert "" + Text(chunks[..n]) == Text(chunks[..n]);
  }

  lemma {:induction false} PrefixReencodes(chunks: seq<seq<byte>>, n: nat)
    requires n <= |chunks|
    ensures Encode("" + Text(chunks[..n])) + Flat(chunks[n..]) == Flat(chunks) <==> AllValid(chunks[..n])
  {
    assert chunks == chunks[..n] + chunks[n..];
    PartReencodes(chunks[..n], chunks[n..]);
  }

  lemma PartReencodes(front: seq<seq<byte>>, back: seq<seq<byte>>)
    ensures Encode("" + Text(front)) + Flat(back) == Flat(front + back) <==> AllValid(front)
  {
    ReencodesExactly(front);
    assert "" + Text(front) == Text(front);
    FlatConcat(front, back);
    SameTail(Encode(Text(front)), Flat(front), Flat(back));
  }

  lemma SameTail(a: seq<byte>, x: seq<byte>, y: seq<byte>)
    ensures a + y == x + y <==> a == x
  {
    if a + y == x + y {
      assert |a| == |x|;
      assert a == (a + y)[..|a|] && x == (x + y)[..|x|];
    }
  }

  // ---- any response -----------------------------------------------------------

  function Refusal(failure: seq<byte>): seq<RawOp> {
    [WriteHead(502, JSON_TYPE), End(failure)]
  }

  /** What the browser is sent of a response: its head and chunks, ended or failed. A page held back
      when it fails is not sent at all. */
  ghost predicate Served(
    page: Page, ops: seq<RawOp>, status: int, headers: Headers, chunks: seq<seq<byte>>, ended: bool, failure: seq<byte>)
  {
    var out := HopHeadersDropped(headers);
    if !IsHtmlForInjection(page, status, headers) then Proper(ops, status, out) && Sent(ops) == Flat(chunks)
    else if Fits("", chunks) < |chunks| then Proper(ops, status, out) && Sent(ops) == Flushing(chunks)
    else if ended then
      ops == [WriteHead(status, NeverCached(out)), End(Encode(Inject(Text(chunks), page.adaptEnabled, page.layer)))]
    else ops == Refusal(failure)
  }

  /** A response that is neither ended nor failed. */
  ghost predicate Underway(page: Page, w: Writer, status: int, headers: Headers, chunks: seq<seq<byte>>) {
    var out := HopHeadersDropped(headers);
    if !IsHtmlForInjection(page, status, headers) then Streaming(w, status, out) && Sent(w.ops) == Flat(chunks)
    else if Fits("", chunks) < |chunks| then Streaming(w, status, out) && Sent(w.ops) == Flushing(chunks)
    else Holding(w, status, out, Text(chunks))
  }

  /** Every response, at every point of it. */
  lemma {:induction false} ServedAsItComes(
    page: Page, status: int, headers: Headers, chunks: seq<seq<byte>>, failure: seq<byte>)
    ensures var w := OnDatas(OnResponse(page, READY, status, headers), chunks);
            && Underway(page, w, status, headers, chunks)
            && Served(page, OnEnd(page, w).ops, status, headers, chunks, true, failure)
            && Served(page, OnError(w, failure).ops, status, headers, chunks, false, failure)
  {
    var out := HopHeadersDropped(headers);
    if !IsHtmlForInjection(page, status, headers) {
      PlainResponse(page, status, headers, chunks, failure);
      PlainUnderway(page, status, headers, chunks);
    } else {
      StartsHolding(page, status, headers);
      HoldingRun(OnResponse(page, READY, status, headers), chunks, status, out, "");
      assert "" + Text(chunks) == Text(chunks);
      assert "" + Text(chunks[..Fits("", chunks)]) == Text(chunks[..Fits("", chunks)]);
      if Fits("", chunks) < |chunks| {
        OversizedPage(page, status, headers, chunks, failure);
      } else {
        HeldPage(page, status, headers, chunks, failure);
      }
    }
  }

  // ---- what a response's head says --------------------------------------------

  /** A header the upstream sent goes on with its value, and no other of that name. */
  predicate PassedOn(out: Headers, headers: Headers, name: string) {
    (name in out <==> name in headers) && (name in out ==> out[name] == headers[name])
  }

  /** No length and no hop header, for the body is not the upstream's own stretch of bytes; a page that
      was injected into is not to be stored, and has no validators; every other header is the upstream's. */
  ghost predicate HeadFits(out: Headers, headers: Headers, injected: bool) {
    && "content-length" !in out && "transfer-encoding" !in out && "connection" !in out
    && (injected ==> "cache-control" in out && out["cache-control"] == "no-store")
    && (injected ==> "etag" !in out && "last-modified" !in out)
    && forall name ::
         (&& name !in {"content-length", "transfer-encoding", "connection"}
          && (injected ==> name !in {"cache-control", "etag", "last-modified"})) ==> PassedOn(out, headers, name)
  }

  /** Of whatever is sent of a response only the first operation is a head. It has the upstream's status
      and fitting headers, or it is the refusal of a page that failed while it was held. */
  lemma HeadsOfServed(
    page: Page, ops: seq<RawOp>, status: int, headers: Headers, chunks: seq<seq<byte>>, ended: bool, failure: seq<byte>)
    requires Served(page, ops, status, headers, chunks, ended, failure)
    ensures ops != [] && ops[0].WriteHead? && (forall i :: 0 < i < |ops| ==> !ops[i].WriteHead?)
    ensures if HeldBack(page, status, headers, chunks) && !ended then ops == [WriteHead(502, JSON_TYPE), End(failure)]
            else ops[0].status == status && HeadFits(ops[0].headers, headers, HeldBack(page, status, headers, chunks))
  {
  }

  /** The head that is already out of a response under way. */
  lemma HeadOfUnderway(page: Page, w: Writer, status: int, headers: Headers, chunks: seq<seq<byte>>)
    requires Underway(page, w, status, headers, chunks) && w.ops != []
    ensures w.ops[0].WriteHead? && w.ops[0].status == status && HeadFits(w.ops[0].headers, headers, false)
  {
  }

  // ---- which pages are held back ----------------------------------------------

  predicate SameLetter(a: char, b: char) {
    a == b || ('A' <= a <= 'Z' && a as int + 32 == b as int)
  }

  /** The same text up to the case of its letters; `b` is in lower case. */
  predicate Spells(a: string, b: string) {
    |a| == |b| && forall i :: 0 <= i < |a| ==> SameLetter(a[i], b[i])
  }

  predicate LowerCase(s: string) {
    forall i :: 0 <= i < |s| ==> !('A' <= s[i] <= 'Z')
  }

  lemma {:induction false} LowerSpells(a: string, b: string)
    requires LowerCase(b)
    ensures |Lower(a)| == |a| && (Lower(a) == b <==> Spells(a, b))
  {
    if a == "" {
    } else if b == "" {
      LowerSpells(a[1..], b);
    } else {
      forall i | 0 <= i < |b[1..]| ensures !('A' <= b[1..][i] <= 'Z') { assert b[1..][i] == b[i + 1]; }
      LowerSpells(a[1..], b[1..]);
      assert Lower(a) == [Lower(a)[0]] + Lower(a[1..]) && b == [b[0]] + b[1..];
      assert Spells(a, b) <==> SameLetter(a[0], b[0]) && Spells(a[1..], b[1..]);
    }
  }

  lemma {:induction false} LowerConcat(a: string, b: string)
    ensures Lower(a + b) == Lower(a) + Lower(b)
  {
    if a == "" {
      assert a + b == b;
    } else {
      assert (a + b)[1..] == a[1..] + b && (a + b)[0] == a[0];
      LowerConcat(a[1..], b);
    }
  }

  lemma BeginsIff(a: string, b: string)
    requires LowerCase(b)
    ensures b <= Lower(a) <==> |b| <= |a| && Spells(a[..|b|], b)
  {
    LowerSpells(a, "");
    if |b| <= |a| {
      assert a == a[..|b|] + a[|b|..];
      LowerConcat(a[..|b|], a[|b|..]);
      LowerSpells(a[..|b|], b);
    }
  }

  predicate SaysHtml(headers: Headers) {
    && "content-type" in headers && |headers["content-type"]| >= 9
    && Spells(headers["content-type"][..9], "text/html")
  }

  predicate SaysCompressed(headers: Headers) {
    && "content-encoding" in headers && headers["content-encoding"] != ""
    && !Spells(headers["content-encoding"], "identity")
  }

  /** A page is held back for the injections exactly if it was asked for with GET, succeeded, is HTML by
      its content type, in whatever case, and is not compressed. */
  lemma HeldIff(page: Page, status: int, headers: Headers)
    ensures OnResponse(page, READY, status, headers).htmlBuf.Some?
       <==> page.isGet && 200 <= status <= 299 && SaysHtml(headers) && !SaysCompressed(headers)
  {
    BeginsIff(Get(headers, "content-type"), "text/html");
    LowerSpells(Get(headers, "content-encoding"), "identity");
    LowerSpells(Get(headers, "content-encoding"), "");
  }

  /** A page is held to its end exactly if the text held and the next chunk together never exceed
      256 KiB, the text counted in UTF-16 units. */
  lemma {:induction false} FitsIff(buffered: string, chunks: seq<seq<byte>>)
    ensures Fits(buffered, chunks) == |chunks|
       <==> forall n :: 0 <= n < |chunks| ==> Utf16Length(buffered + Text(chunks[..n])) + |chunks[n]| <= 256 * 1024
    decreases chunks
  {
    if chunks != [] {
      var next, rest := buffered + Decode(chunks[0]), chunks[1..];
      FitsIff(next, rest);
      assert buffered + Text(chunks[..0]) == buffered;
      forall n | 0 <= n < |rest|
        ensures next + Text(rest[..n]) == buffered + Text(chunks[..n + 1]) && rest[n] == chunks[n + 1]
      {
        assert chunks[..n + 1][1..] == rest[..n] && chunks[..n + 1][0] == chunks[0];
        Grouped(buffered, Decode(chunks[0]), Text(rest[..n]));
      }
      if forall n :: 0 <= n < |rest| ==> Utf16Length(next + Text(rest[..n])) + |rest[n]| <= 256 * 1024 {
        forall n | 1 <= n < |chunks| ensures Utf16Length(buffered + Text(chunks[..n])) + |chunks[n]| <= 256 * 1024 {
          assert Utf16Length(next + Text(rest[..n - 1])) + |rest[n - 1]| <= 256 * 1024;
        }
      }
    }
  }

  lemma PlainUnderway(page: Page, status: int, headers: Headers, chunks: seq<seq<byte>>)
    requires !IsHtmlForInjection(page, status, headers)
    ensures Underway(page, OnDatas(OnResponse(page, READY, status, headers), chunks), status, headers, chunks)
  {
    var w0, out := OnResponse(page, READY, status, headers), HopHeadersDropped(headers);
    assert w0.ops == [WriteHead(status, out)] && Sent(w0.ops) == [] + Sent([]);
    StreamingRun(w0, chunks, status, out);
  }

  /** Data that comes before any head goes out under an implicit head of the runtime's own: the response
      has then begun, so neither its end nor a failure writes a head any more. */
  lemma DataBeforeHead(page: Page, chunk: seq<byte>, chunks: seq<seq<byte>>, failure: seq<byte>)
    ensures var w := OnDatas(OnData(READY, chunk), chunks);
            && (forall i :: 0 <= i < |w.ops| ==> w.ops[i].Write?) && Sent(w.ops) == chunk + Flat(chunks)
            && OnEnd(page, w).ops == w.ops + [End([])] && OnError(w, failure).ops == w.ops + [End([])]
  {
    var first := OnData(READY, chunk);
    assert first.ops == [Write(chunk)] && [Write(chunk)][1..] == [];
    assert Sent([Write(chunk)]) == chunk + Sent([]);
    HeadlessRun(first, chunks);
  }

  lemma {:induction false} HeadlessRun(w: Writer, chunks: seq<seq<byte>>)
    requires w.htmlBuf.None? && w.headersSent && forall i :: 0 <= i < |w.ops| ==> w.ops[i].Write?
    ensures var w' := OnDatas(w, chunks);
            && w'.htmlBuf.None? && w'.headersSent && (forall i :: 0 <= i < |w'.ops| ==> w'.ops[i].Write?)
            && Sent(w'.ops) == Sent(w.ops) + Flat(chunks)
    decreases chunks
  {
    if chunks == [] {
      assert Sent(w.ops) + [] == Sent(w.ops);
    } else {
      SentConcat(w.ops, [Write(chunks[0])]);
      assert [Write(chunks[0])][1..] == [] && Sent([Write(chunks[0])]) == chunks[0] + Sent([]);
      HeadlessRun(OnData(w, chunks[0]), chunks[1..]);
      Grouped(Sent(w.ops), chunks[0], Flat(chunks[1..]));
    }
  }

  /** A response that ends or fails before anything has come of it. */
  lemma NothingCame(page: Page, failure: seq<byte>)
    ensures OnEnd(page, READY).ops == [WriteHead(200, map["content-type" := "application/json"]), End([])]
    ensures OnError(READY, failure).ops == [WriteHead(502, map["content-type" := "application/json"]), End(failure)]
  {
  }

  /** The page is being held back and nothing has been written. */
  predicate HeldBack(page: Page, status: int, headers: Headers, chunks: seq<seq<byte>>) {
    IsHtmlForInjection(page, status, headers) && Fits("", chunks) == |chunks|
  }

  /** The agent reports a local connection that breaks as a 502 and an end, whatever it has said before.
      Before the head that is the one response; after the head of a response that is streamed it asks for
      a second head; and of a page held back it makes a 502 with what there is of the page. */
  lemma {:induction false} LateFailureHeadsTwice(page: Page, status: int, headers: Headers, chunks: seq<seq<byte>>)
    ensures OnEnd(page, OnResponse(page, READY, 502, map[])).ops == [WriteHead(502, map[]), End([])]
    ensures var w, out := OnDatas(OnResponse(page, READY, status, headers), chunks), HopHeadersDropped(headers);
            var ops := OnEnd(page, OnResponse(page, w, 502, map[])).ops;
            if HeldBack(page, status, headers, chunks) then
              ops == [WriteHead(502, map[]), End(Encode(Inject(Text(chunks), page.adaptEnabled, page.layer)))]
            else
              && ops == w.ops + [WriteHead(502, map[]), End([])]
              && w.ops != [] && ops[0] == WriteHead(status, out) && !Proper(ops, status, out)
  {
    var w, none: Headers := OnDatas(OnResponse(page, READY, status, headers), chunks), map[];
    assert HopHeadersDropped(none) == none;
    ServedAsItComes(page, status, headers, chunks, []);
    if !HeldBack(page, status, headers, chunks) {
      SecondHead(page, w, status, HopHeadersDropped(headers));
    }
  }

  lemma SecondHead(page: Page, w: Writer, status: int, out: Headers)
    requires Streaming(w, status, out)
    ensures var ops := OnEnd(page, OnResponse(page, w, 502, map[])).ops;
            ops == w.ops + [WriteHead(502, map[]), End([])] && !Proper(ops, status, out)
  {
    var none: Headers := map[];
    assert HopHeadersDropped(none) == none;
    assert w.ops + [WriteHead(502, none)] + [End([])] == w.ops + [WriteHead(502, none), End([])];
    assert (w.ops + [WriteHead(502, none), End([])])[|w.ops|] == WriteHead(502, none);
  }

  const CUT_CHARACTER: seq<seq<byte>> := [[0xC3], [0xA9]]

  lemma CutCharacterDecodes()
    ensures Valid([0xC3, 0xA9]) && Text(CUT_CHARACTER) == [REPLACEMENT, REPLACEMENT]
    ensures Flat(CUT_CHARACTER) == [0xC3, 0xA9] && !Valid(CUT_CHARACTER[0])
  {
    var a, b: seq<byte> := [0xC3], [0xA9];
    assert DecodeFirst(a) == (REPLACEMENT, 1) && a[1..] == [];
    assert DecodeFirst(b) == (REPLACEMENT, 1) && b[1..] == [];
    assert Decode(a) == [REPLACEMENT] + Decode([]) && Decode(b) == [REPLACEMENT] + Decode([]);
    assert CUT_CHARACTER[1..] == [b] && [b][1..] == [];
    assert Text([b]) == Decode(b) + Text([]) && Flat([b]) == b + Flat([]);
    CutCharacterWhole();
    assert |Encode([REPLACEMENT])| == 3 by { assert [REPLACEMENT][1..] == ""; }
  }

  lemma CutCharacterWhole()
    ensures Valid([0xC3, 0xA9])
  {
    var whole: seq<byte> := [0xC3, 0xA9];
    assert DecodeFirst(whole) == (0xE9 as char, 2) && whole[2..] == [];
    assert Decode(whole) == [0xE9 as char] + Decode([]);
    assert [0xE9 as char][1..] == "";
    assert Encode([0xE9 as char]) == EncodeChar(0xE9 as char) + Encode("");
  }

  /** A page whose one character of two bytes arrives in two chunks: well-formed as a whole, and
      served as two replacement characters. */
  lemma CutCharacterIsLost(page: Page, status: int, headers: Headers)
    requires IsHtmlForInjection(page, status, headers)
    ensures Valid(Flat(CUT_CHARACTER)) && Encode(Text(CUT_CHARACTER)) != Flat(CUT_CHARACTER)
    ensures OnEnd(page, OnDatas(OnResponse(page, READY, status, headers), CUT_CHARACTER)).ops
         == [WriteHead(status, NeverCached(HopHeadersDropped(headers))),
             End(Encode(Inject([REPLACEMENT, REPLACEMENT], page.adaptEnabled, page.layer)))]
  {
    CutCharacterDecodes();
    CutCharacterFits();
    HeldPage(page, status, headers, CUT_CHARACTER, []);
  }

  lemma CutCharacterFits()
    ensures Fits("", CUT_CHARACTER) == |CUT_CHARACTER|
  {
    var a, b: seq<byte> := [0xC3], [0xA9];
    assert CUT_CHARACTER[1..] == [b] && [b][1..] == [];
    assert DecodeFirst(a) == (REPLACEMENT, 1) && Decode(a) == [REPLACEMENT] + Decode([]);
    assert [REPLACEMENT][1..] == "" && "" + Decode(a) == Decode(a);
    assert Utf16Length("") == 0 && Utf16Length([REPLACEMENT]) == 1;
    assert Fits([REPLACEMENT], [b]) == 1 + Fits([REPLACEMENT] + Decode(b), []);
  }

  // ---- the code ---------------------------------------------------------------

  /** The closures of one relayed request, over their shared variables. */
  class Relay {
    const page: Page
    var htmlBuf: Option<string>
    var pendingStatus: int
    var pendingHeaders: Option<Headers>
    var headersSent: bool
    ghost var ops: seq<RawOp>

    ghost function State(): Writer
      reads this
    {
      Writer(htmlBuf, pendingStatus, pendingHeaders, headersSent, ops)
    }

    constructor (page: Page)
      ensures this.page == page && State() == READY
    {
      this.page := page;
      htmlBuf, pendingStatus, pendingHeaders, headersSent, ops := None, 0, None, false, [];
    }

    method RawHead(status: int, headers: Headers)
      modifies this`headersSent, this`ops
      ensures State() == Head(old(State()), status, headers)
    {
      headersSent, ops := true, ops + [WriteHead(status, headers)];
    }

    method RawWrite(chunk: seq<byte>)
      modifies this`headersSent, this`ops
      ensures State() == Body(old(State()), chunk)
    {
      headersSent, ops := true, ops + [Write(chunk)];
    }

    method Response(status: int, headers: Headers)
      modifies this
      ensures State() == OnResponse(page, old(State()), status, headers)
    {
      var out := headers - {"content-length", "transfer-encoding", "connection"};
      if IsHtmlForInjection(page, status, headers) {
        htmlBuf := Some("");
        pendingStatus := status;
        pendingHeaders := Some(out);
        return;
      }
      RawHead(status, out);
    }

    method Data(chunk: seq<byte>)
      modifies this
      ensures State() == OnData(old(State()), chunk)
    {
      if htmlBuf.None? {
        RawWrite(chunk);
        return;
      }
      var held := htmlBuf.value;
      if Utf16Length(held) + |chunk| > HTML_BUFFER_CAP {
        if !headersSent && pendingHeaders.Some? {
          RawHead(pendingStatus, pendingHeaders.value);
        }
        pendingHeaders := None;
        RawWrite(Encode(held));
        htmlBuf := None;
        RawWrite(chunk);
        return;
      }
      htmlBuf := Some(held + Decode(chunk));
    }

    method Finish()
      modifies this
      ensures State() == OnEnd(page, old(State()))
    {
      if htmlBuf.Some? {
        var text := Inject(htmlBuf.value, page.adaptEnabled, page.layer);
        if !headersSent && pendingHeaders.Some? {
          RawHead(pendingStatus, NeverCached(pendingHeaders.value));
        }
        pendingHeaders := None;
        htmlBuf := None;
        ops := ops + [End(Encode(text))];
        return;
      }
      if !headersSent {
        RawHead(200, JSON_TYPE);
      }
      ops := ops + [End([])];
    }

    method Fail(failure: seq<byte>)
      modifies this
      ensures State() == OnError(old(State()), failure)
    {
      if headersSent {
        ops := ops + [End([])];
        return;
      }
      RawHead(502, JSON_TYPE);
      ops := ops + [End(failure)];
    }
  }
}
