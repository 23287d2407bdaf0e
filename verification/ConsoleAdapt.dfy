/** The two injections into a console page: where they land, and that they land once. */
module ConsoleAdapt {
  const INJECT_MARKER := "dsh-gw-mobile-adapt"
  const TRANSPORT_MARKER := "dsh-gw-transport-owner"
  const HEAD_END := "</head>"
  const BODY_END := "</body>"

  // ---- searching --------------------------------------------------------------

  predicate OccursAt(s: string, p: string, i: int) {
    0 <= i && i + |p| <= |s| && s[i..i + |p|] == p
  }

  predicate Contains(s: string, p: string) {
    exists i :: 0 <= i <= |s| && OccursAt(s, p, i)
  }

  /** The first occurrence at or after `from`, or -1. */
  function IndexFrom(s: string, p: string, from: nat): (r: int)
    requires from <= |s|
    ensures r == -1 || (from <= r && OccursAt(s, p, r))
    ensures forall i :: from <= i && (r == -1 || i < r) ==> !OccursAt(s, p, i)
    decreases |s| - from
  {
    if OccursAt(s, p, from) then from else if from == |s| then -1 else IndexFrom(s, p, from + 1)
  }

  function IndexOf(s: string, p: string): int {
    IndexFrom(s, p, 0)
  }

  /** The last occurrence at or before `upTo`, or -1. */
  function LastIndexUpTo(s: string, p: string, upTo: nat): (r: int)
    requires upTo <= |s|
    ensures r == -1 || (r <= upTo && OccursAt(s, p, r))
    ensures forall i :: i <= upTo && (r == -1 || r < i) ==> !OccursAt(s, p, i)
    decreases upTo
  {
    if OccursAt(s, p, upTo) then upTo else if upTo == 0 then -1 else LastIndexUpTo(s, p, upTo - 1)
  }

  function LastIndexOf(s: string, p: string): int {
    LastIndexUpTo(s, p, |s|)
  }

  // ---- the injections ---------------------------------------------------------

  function InsertBeforeHeadEnd(html: string, payload: string): string {
    var headEnd := IndexOf(html, HEAD_END);
    if headEnd != -1 then html[..headEnd] + payload + html[headEnd..]
    else
      var bodyEnd := LastIndexOf(html, BODY_END);
      if bodyEnd != -1 then html[..bodyEnd] + payload + html[bodyEnd..]
      else html + payload
  }

  const TRANSPORT_COMMENT := "<!-- dsh-gw-transport-owner -->"
  const TRANSPORT_OPEN := "<script id=\"dsh-gw-transport-owner-js\">"
  const TRANSPORT_SCRIPT_1 := "(function(){var t=window.__DSH_TRANSPOR"
  const TRANSPORT_SCRIPT_2 := "T__||(window.__DSH_TRANSPORT__={});t.own"
  const TRANSPORT_SCRIPT_3 := "sHost=true})();"
  const TRANSPORT_CLOSE := "</script>"
  const TRANSPORT_SCRIPT := TRANSPORT_SCRIPT_1 + TRANSPORT_SCRIPT_2 + TRANSPORT_SCRIPT_3
  const TRANSPORT_PAYLOAD := TRANSPORT_COMMENT + (TRANSPORT_OPEN + (TRANSPORT_SCRIPT + TRANSPORT_CLOSE))

  function InjectTransportOwnership(html: string): string {
    if Contains(html, TRANSPORT_MARKER) then html else InsertBeforeHeadEnd(html, TRANSPORT_PAYLOAD)
  }

  /** `layer` is the mobile layer's markup; its first comment carries the marker. */
  function InjectMobileAdapt(html: string, layer: string): string {
    if Contains(html, INJECT_MARKER) then html else InsertBeforeHeadEnd(html, layer)
  }

  /** What a console page becomes; the mobile layer only while it is enabled. */
  function Inject(html: string, enabled: bool, layer: string): string {
    var owned := InjectTransportOwnership(html);
    if enabled then InjectMobileAdapt(owned, layer) else owned
  }

  /** Where insertions land: at the first </head>, else the last </body>, else the end. */
  function InsertPoint(html: string): (r: nat)
    ensures r <= |html|
  {
    if IndexOf(html, HEAD_END) != -1 then IndexOf(html, HEAD_END)
    else if LastIndexOf(html, BODY_END) != -1 then LastIndexOf(html, BODY_END)
    else |html|
  }

  lemma InsertsAtPoint(html: string, payload: string)
    ensures InsertBeforeHeadEnd(html, payload) == html[..InsertPoint(html)] + payload + html[InsertPoint(html)..]
  {
  }

  // ---- inserting markup disturbs no search -------------------------------------

  /** No '<' but first, no '>' but last: nothing that could straddle the edge of a piece of markup. */
  predicate Tagless(needle: string) {
    && |needle| > 0
    && (forall k :: 0 < k < |needle| ==> needle[k] != '<')
    && (forall k :: 0 <= k < |needle| - 1 ==> needle[k] != '>')
  }

  predicate Markup(p: string) {
    |p| >= 2 && p[0] == '<' && p[|p| - 1] == '>'
  }

  lemma OccursChar(s: string, p: string, i: int, k: int)
    requires OccursAt(s, p, i) && 0 <= k < |p|
    ensures s[i + k] == p[k]
  {
  }

  lemma OccursChars(s: string, p: string, i: int)
    requires 0 <= i && i + |p| <= |s| && forall k :: 0 <= k < |p| ==> s[i + k] == p[k]
    ensures OccursAt(s, p, i)
  {
  }

  lemma OccursInside(x: string, p: string, y: string, needle: string, i: int)
    requires OccursAt(x + p + y, needle, i) && |x| <= i && i + |needle| <= |x| + |p|
    ensures OccursAt(p, needle, i - |x|)
  {
  }

  /** The occurrences in x + p + y are those in x and those in y, the latter shifted. */
  lemma OccurrencesSplit(x: string, p: string, y: string, needle: string, i: int)
    requires Tagless(needle) && Markup(p) && !OccursAt(p, needle, i - |x|)
    ensures OccursAt(x + p + y, needle, i)
       <==> (OccursAt(x, needle, i) || (i >= |x| + |p| && OccursAt(y, needle, i - |x| - |p|)))
  {
    var s, n := x + p + y, |needle|;
    if OccursAt(s, needle, i) {
      if i < |x| < i + n {
        OccursChar(s, needle, i, |x| - i); // p[0] == '<' inside the needle
        assert false;
      } else if |x| <= i < |x| + |p| < i + n {
        OccursChar(s, needle, i, |x| + |p| - 1 - i); // p's final '>' before the needle's end
        assert false;
      } else if i + n <= |x| {
        assert s[i..i + n] == x[i..i + n];
      } else if i >= |x| + |p| {
        assert s[i..i + n] == y[i - |x| - |p|..i - |x| - |p| + n];
      } else {
        OccursInside(x, p, y, needle, i);
        assert false;
      }
    } else {
      if 0 <= i && i + n <= |x| { assert s[i..i + n] == x[i..i + n]; }
      if i >= |x| + |p| && i + n <= |s| { assert s[i..i + n] == y[i - |x| - |p|..i - |x| - |p| + n]; }
    }
  }

  /** Without the markup in between: y is empty or starts with a tag of its own. */
  lemma OccurrencesJoin(x: string, y: string, needle: string, i: int)
    requires Tagless(needle) && (y == "" || y[0] == '<')
    ensures OccursAt(x + y, needle, i) <==> (OccursAt(x, needle, i) || (i >= |x| && OccursAt(y, needle, i - |x|)))
  {
    var s, n := x + y, |needle|;
    if OccursAt(s, needle, i) {
      if i < |x| < i + n {
        OccursChar(s, needle, i, |x| - i);
        assert false;
      } else if i + n <= |x| {
        assert s[i..i + n] == x[i..i + n];
      } else {
        assert s[i..i + n] == y[i - |x|..i - |x| + n];
      }
    } else {
      if 0 <= i && i + n <= |x| { assert s[i..i + n] == x[i..i + n]; }
      if i >= |x| && i + n <= |s| { assert s[i..i + n] == y[i - |x|..i - |x| + n]; }
    }
  }

  /** `s` is `html` with `len` characters inserted at `at`, as far as occurrences of the needle go. */
  ghost predicate Shifted(html: string, s: string, at: nat, len: nat, needle: string) {
    forall i :: ShiftedAt(html, s, at, len, needle, i)
  }

  predicate ShiftedAt(html: string, s: string, at: nat, len: nat, needle: string, i: int) {
    OccursAt(s, needle, i)
    <==> (if i < at then OccursAt(html, needle, i) else i >= at + len && OccursAt(html, needle, i - len))
  }

  lemma InsertionShiftsAt(x: string, y: string, p: string, needle: string, i: int)
    requires y == "" || y[0] == '<'
    requires Tagless(needle) && Markup(p) && !OccursAt(p, needle, i - |x|)
    ensures ShiftedAt(x + y, x + p + y, |x|, |p|, needle, i)
  {
    OccurrencesSplit(x, p, y, needle, i);
    OccurrencesJoin(x, y, needle, i);
    OccurrencesJoin(x, y, needle, i - |p|);
  }

  /** Inserting markup free of the needle shifts the occurrences after it and makes or breaks none. */
  lemma InsertionShifts(html: string, at: nat, p: string, needle: string)
    requires at <= |html| && (at == |html| || html[at] == '<')
    requires Tagless(needle) && Markup(p) && forall i :: !OccursAt(p, needle, i)
    ensures Shifted(html, html[..at] + p + html[at..], at, |p|, needle)
  {
    var x, y := html[..at], html[at..];
    assert html == x + y;
    forall i ensures ShiftedAt(html, x + p + y, at, |p|, needle, i) {
      InsertionShiftsAt(x, y, p, needle, i);
    }
  }

  lemma FirstIndex(s: string, needle: string, r: nat)
    requires OccursAt(s, needle, r) && forall i :: i < r ==> !OccursAt(s, needle, i)
    ensures IndexOf(s, needle) == r
  {
  }

  lemma LastIndex(s: string, needle: string, r: nat)
    requires OccursAt(s, needle, r) && forall i :: r < i ==> !OccursAt(s, needle, i)
    ensures LastIndexOf(s, needle) == r
  {
  }

  /** The first and the last occurrence move with the rest. */
  lemma FirstMoves(html: string, s: string, at: nat, len: nat, needle: string)
    requires Shifted(html, s, at, len, needle)
    requires IndexOf(html, needle) == -1 || IndexOf(html, needle) == at
    ensures IndexOf(s, needle) == if IndexOf(html, needle) == -1 then -1 else at + len
  {
    if IndexOf(html, needle) == at {
      assert ShiftedAt(html, s, at, len, needle, at + len);
      forall i | i < at + len ensures !OccursAt(s, needle, i) { assert ShiftedAt(html, s, at, len, needle, i); }
      FirstIndex(s, needle, at + len);
    } else {
      forall i ensures !OccursAt(s, needle, i) { assert ShiftedAt(html, s, at, len, needle, i); }
    }
  }

  lemma LastMoves(html: string, s: string, at: nat, len: nat, needle: string)
    requires Shifted(html, s, at, len, needle)
    requires LastIndexOf(html, needle) == -1 || LastIndexOf(html, needle) == at
    ensures LastIndexOf(s, needle) == if LastIndexOf(html, needle) == -1 then -1 else at + len
  {
    if LastIndexOf(html, needle) == at {
      assert ShiftedAt(html, s, at, len, needle, at + len);
      forall i | at + len < i ensures !OccursAt(s, needle, i) {
        assert ShiftedAt(html, s, at, len, needle, i);
        assert i - len <= |html| ==> !OccursAt(html, needle, i - len);
      }
      LastIndex(s, needle, at + len);
    } else {
      forall i ensures !OccursAt(s, needle, i) {
        assert ShiftedAt(html, s, at, len, needle, i);
        assert i <= |html| ==> !OccursAt(html, needle, i);
        assert i - len <= |html| ==> !OccursAt(html, needle, i - len);
      }
    }
  }

  lemma PointIsTag(html: string)
    ensures InsertPoint(html) == |html| || html[InsertPoint(html)] == '<'
  {
    if InsertPoint(html) < |html| {
      var needle := if IndexOf(html, HEAD_END) != -1 then HEAD_END else BODY_END;
      OccursChar(html, needle, InsertPoint(html), 0);
    }
  }

  /** After the insertion the insert point is where it was, past the new markup. */
  lemma PointMoves(html: string, p: string)
    requires Markup(p) && (forall i :: !OccursAt(p, HEAD_END, i)) && (forall i :: !OccursAt(p, BODY_END, i))
    ensures InsertPoint(InsertBeforeHeadEnd(html, p)) == InsertPoint(html) + |p|
  {
    var at := InsertPoint(html);
    var s := html[..at] + p + html[at..];
    InsertsAtPoint(html, p);
    PointIsTag(html);
    InsertionShifts(html, at, p, HEAD_END);
    FirstMoves(html, s, at, |p|, HEAD_END);
    if IndexOf(html, HEAD_END) == -1 {
      InsertionShifts(html, at, p, BODY_END);
      LastMoves(html, s, at, |p|, BODY_END);
    }
  }

  // ---- the transport payload --------------------------------------------------

  predicate Without(s: string, ch: char) {
    forall k :: 0 <= k < |s| ==> s[k] != ch
  }

  lemma WithoutConcat(a: string, b: string, ch: char)
    requires Without(a, ch) && Without(b, ch)
    ensures Without(a + b, ch)
  {
  }

  lemma TransportScriptLacks(ch: char)
    requires ch == '/' || ch == 'b'
    ensures Without(TRANSPORT_SCRIPT, ch)
  {
    assert Without(TRANSPORT_SCRIPT_1, ch);
    assert Without(TRANSPORT_SCRIPT_2, ch);
    assert Without(TRANSPORT_SCRIPT_3, ch);
    WithoutConcat(TRANSPORT_SCRIPT_1, TRANSPORT_SCRIPT_2, ch);
    WithoutConcat(TRANSPORT_SCRIPT_1 + TRANSPORT_SCRIPT_2, TRANSPORT_SCRIPT_3, ch);
  }

  lemma TransportLacksB()
    ensures Without(TRANSPORT_PAYLOAD, 'b')
  {
    TransportScriptLacks('b');
    WithoutConcat(TRANSPORT_SCRIPT, TRANSPORT_CLOSE, 'b');
    WithoutConcat(TRANSPORT_OPEN, TRANSPORT_SCRIPT + TRANSPORT_CLOSE, 'b');
    WithoutConcat(TRANSPORT_COMMENT, TRANSPORT_OPEN + (TRANSPORT_SCRIPT + TRANSPORT_CLOSE), 'b');
  }

  /** The payload's only slash is that of its closing script tag. */
  lemma TransportSlash(i: int)
    requires 0 <= i < |TRANSPORT_PAYLOAD| && TRANSPORT_PAYLOAD[i] == '/'
    ensures i == |TRANSPORT_PAYLOAD| - |TRANSPORT_CLOSE| + 1
  {
    TransportScriptLacks('/');
    OpeningLacksSlash();
    SlashInTail(TRANSPORT_COMMENT, TRANSPORT_OPEN, TRANSPORT_SCRIPT, TRANSPORT_CLOSE, i);
    CloseSlash();
  }

  lemma OpeningLacksSlash()
    ensures Without(TRANSPORT_COMMENT, '/') && Without(TRANSPORT_OPEN, '/')
  {
  }

  lemma CloseSlash()
    ensures forall k :: 0 <= k < |TRANSPORT_CLOSE| && TRANSPORT_CLOSE[k] == '/' ==> k == 1
  {
  }

  lemma SlashInTail(a: string, b: string, c: string, d: string, i: int)
    requires Without(a, '/') && Without(b, '/') && Without(c, '/')
    requires 0 <= i < |a + (b + (c + d))| && (a + (b + (c + d)))[i] == '/'
    ensures |a| + |b| + |c| <= i && d[i - |a| - |b| - |c|] == '/'
  {
  }

  lemma TransportHasNoHeadEnd(i: int)
    ensures !OccursAt(TRANSPORT_PAYLOAD, HEAD_END, i)
  {
    assert TRANSPORT_PAYLOAD[|TRANSPORT_PAYLOAD| - |TRANSPORT_CLOSE| + 2] == TRANSPORT_CLOSE[2];
    if OccursAt(TRANSPORT_PAYLOAD, HEAD_END, i) {
      OccursChar(TRANSPORT_PAYLOAD, HEAD_END, i, 1);
      OccursChar(TRANSPORT_PAYLOAD, HEAD_END, i, 2);
      TransportSlash(i + 1);
      assert false;
    }
  }

  lemma TransportHasNo(needle: string, i: int)
    requires needle == HEAD_END || needle == BODY_END || needle == INJECT_MARKER
    ensures !OccursAt(TRANSPORT_PAYLOAD, needle, i)
  {
    if needle == HEAD_END {
      TransportHasNoHeadEnd(i);
    } else {
      TransportLacksB();
      LacksCharLacksNeedle(TRANSPORT_PAYLOAD, needle, if needle == BODY_END then 2 else 9, i);
    }
  }

  lemma LacksCharLacksNeedle(s: string, needle: string, k: nat, i: int)
    requires k < |needle| && Without(s, needle[k])
    ensures !OccursAt(s, needle, i)
  {
  }

  // ---- the page ---------------------------------------------------------------

  lemma TaglessNeedles()
    ensures Tagless(HEAD_END) && Tagless(BODY_END) && Tagless(INJECT_MARKER)
    ensures Tagless(TRANSPORT_MARKER) && Markup(TRANSPORT_PAYLOAD)
  {
    assert TRANSPORT_PAYLOAD[0] == TRANSPORT_COMMENT[0];
    assert TRANSPORT_PAYLOAD[|TRANSPORT_PAYLOAD| - 1] == TRANSPORT_CLOSE[|TRANSPORT_CLOSE| - 1];
  }

  /** Owning the transport neither adds nor hides the other marker, and moves the insert point past itself. */
  lemma {:induction false} OwnershipIsTransparent(html: string)
    ensures Contains(InjectTransportOwnership(html), INJECT_MARKER) <==> Contains(html, INJECT_MARKER)
    ensures InsertPoint(InjectTransportOwnership(html))
         == InsertPoint(html) + if Contains(html, TRANSPORT_MARKER) then 0 else |TRANSPORT_PAYLOAD|
  {
    if !Contains(html, TRANSPORT_MARKER) {
      var at := InsertPoint(html);
      var s := InjectTransportOwnership(html);
      TaglessNeedles();
      forall i
        ensures !OccursAt(TRANSPORT_PAYLOAD, HEAD_END, i) && !OccursAt(TRANSPORT_PAYLOAD, BODY_END, i)
        ensures !OccursAt(TRANSPORT_PAYLOAD, INJECT_MARKER, i)
      {
        TransportHasNo(HEAD_END, i);
        TransportHasNo(BODY_END, i);
        TransportHasNo(INJECT_MARKER, i);
      }
      PointMoves(html, TRANSPORT_PAYLOAD);
      InsertsAtPoint(html, TRANSPORT_PAYLOAD);
      PointIsTag(html);
      InsertionShifts(html, at, TRANSPORT_PAYLOAD, INJECT_MARKER);
      ShiftedContains(html, s, at, |TRANSPORT_PAYLOAD|, INJECT_MARKER);
    }
  }

  lemma ShiftedContains(html: string, s: string, at: nat, len: nat, needle: string)
    requires Shifted(html, s, at, len, needle)
    ensures Contains(s, needle) <==> Contains(html, needle)
  {
    if Contains(html, needle) {
      var i :| 0 <= i <= |html| && OccursAt(html, needle, i);
      assert ShiftedAt(html, s, at, len, needle, if i < at then i else i + len);
    }
    if Contains(s, needle) {
      var i :| 0 <= i <= |s| && OccursAt(s, needle, i);
      assert ShiftedAt(html, s, at, len, needle, i);
      assert OccursAt(html, needle, if i < at then i else i - len);
    }
  }

  /** What a page lacks, ownership first. */
  function MissingPayloads(html: string, enabled: bool, layer: string): string {
    (if Contains(html, TRANSPORT_MARKER) then "" else TRANSPORT_PAYLOAD)
    + (if !enabled || Contains(html, INJECT_MARKER) then "" else layer)
  }

  /** The page served is the upstream text with the missing payloads inserted at one point. */
  lemma InjectedAtOnePoint(html: string, enabled: bool, layer: string)
    ensures Inject(html, enabled, layer)
         == html[..InsertPoint(html)] + MissingPayloads(html, enabled, layer) + html[InsertPoint(html)..]
  {
    var at := InsertPoint(html);
    var x, y := html[..at], html[at..];
    OwnershipIsTransparent(html);
    if Contains(html, TRANSPORT_MARKER) {
      InsertsAtPoint(html, layer);
      assert x + "" == x && html == x + y && "" + layer == layer;
    } else {
      InsertsAtPoint(html, TRANSPORT_PAYLOAD);
      InsertsTwice(x, TRANSPORT_PAYLOAD, y, layer);
    }
  }

  lemma InsertsTwice(x: string, p: string, y: string, layer: string)
    ensures InsertPoint(x + p + y) == |x| + |p| ==> InsertBeforeHeadEnd(x + p + y, layer) == x + (p + layer) + y
    ensures x + (p + "") + y == x + p + y
  {
    InsertsAtPoint(x + p + y, layer);
    assert (x + p + y)[..|x| + |p|] == x + p && (x + p + y)[|x| + |p|..] == y;
    assert p + "" == p && x + p + layer == x + (p + layer);
  }

  lemma InsertionKeeps(x: string, p: string, y: string, needle: string)
    requires Tagless(needle) && (y == "" || y[0] == '<')
    ensures Contains(x + y, needle) || Contains(p, needle) ==> Contains(x + p + y, needle)
  {
    var s := x + p + y;
    if Contains(x + y, needle) {
      var i :| 0 <= i <= |x + y| && OccursAt(x + y, needle, i);
      OccurrencesJoin(x, y, needle, i);
      var j := if OccursAt(x, needle, i) then i else i + |p|;
      forall k | 0 <= k < |needle| ensures s[j + k] == needle[k] {
        OccursChar(x + y, needle, i, k);
      }
      OccursChars(s, needle, j);
    } else if Contains(p, needle) {
      var i :| 0 <= i <= |p| && OccursAt(p, needle, i);
      forall k | 0 <= k < |needle| ensures s[|x| + i + k] == needle[k] { OccursChar(p, needle, i, k); }
      OccursChars(s, needle, |x| + i);
    }
  }

  lemma InsertedIsFound(html: string, payload: string, needle: string)
    requires Tagless(needle)
    ensures Contains(html, needle) || Contains(payload, needle)
        ==> Contains(InsertBeforeHeadEnd(html, payload), needle)
  {
    var at := InsertPoint(html);
    InsertsAtPoint(html, payload);
    PointIsTag(html);
    assert html == html[..at] + html[at..];
    InsertionKeeps(html[..at], payload, html[at..], needle);
  }

  lemma TransportIsMarked()
    ensures Contains(TRANSPORT_PAYLOAD, TRANSPORT_MARKER)
  {
    assert TRANSPORT_COMMENT == "<!-- " + TRANSPORT_MARKER + " -->";
    var rest := " -->" + (TRANSPORT_OPEN + (TRANSPORT_SCRIPT + TRANSPORT_CLOSE));
    assert TRANSPORT_PAYLOAD == "<!-- " + TRANSPORT_MARKER + rest;
    assert TRANSPORT_PAYLOAD[5..5 + |TRANSPORT_MARKER|] == TRANSPORT_MARKER;
    assert OccursAt(TRANSPORT_PAYLOAD, TRANSPORT_MARKER, 5);
  }

  /** A second gateway in the chain injects nothing more. */
  lemma {:induction false} InjectionIsIdempotent(html: string, enabled: bool, layer: string)
    requires Contains(layer, INJECT_MARKER)
    ensures Inject(Inject(html, enabled, layer), enabled, layer) == Inject(html, enabled, layer)
  {
    var owned := InjectTransportOwnership(html);
    TaglessNeedles();
    TransportIsMarked();
    InsertedIsFound(html, TRANSPORT_PAYLOAD, TRANSPORT_MARKER);
    InsertedIsFound(owned, layer, TRANSPORT_MARKER);
    InsertedIsFound(owned, layer, INJECT_MARKER);
  }
}
