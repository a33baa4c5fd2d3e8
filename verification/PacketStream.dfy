/**
 Packet detection in the received byte stream: what the reset-on-match window computes,
 against a statement about the stream as a whole.
 */
module PacketStream {
  import opened Bytes
  import opened PatternBuffer

  /** "SOCHUB" */
  const CHECKPATTERN: seq<Byte> := [0x53, 0x4F, 0x43, 0x48, 0x55, 0x42]
  const LEN: nat := 6

  /** The character codes of a text. */
  predicate Spells(bytes: seq<Byte>, text: string) {
    |bytes| == |text| && forall i | 0 <= i < |text| :: bytes[i] == text[i] as int
  }

  lemma PatternSpells()
    ensures Spells(CHECKPATTERN, "SOCHUB")
  {
  }

  /** The pattern occurs in `s`, ending at position `e`. */
  predicate OccursAt(s: seq<Byte>, e: nat) {
    LEN <= e <= |s| && s[e - LEN..e] == CHECKPATTERN
  }

  /** The byte that belongs to the occurrence ending at `e`: the one before it, or 0 when the
      occurrence starts the stream or directly follows another. */
  function PayloadAt(s: seq<Byte>, e: nat): Byte
    requires OccursAt(s, e)
  {
    if e == LEN || OccursAt(s, e - LEN) then 0 else s[e - LEN - 1]
  }

  /** The payloads of all occurrences in `s`, in order. */
  function Payloads(s: seq<Byte>): seq<Byte> {
    if s == [] then []
    else
      var n := |s|;
      Payloads(s[..n - 1]) + if OccursAt(s, n) then [PayloadAt(s, n)] else []
  }

  lemma OccurrenceBytes(s: seq<Byte>, e: nat, j: nat)
    requires OccursAt(s, e) && j < LEN
    ensures s[e - LEN + j] == CHECKPATTERN[j]
    ensures j > 0 ==> s[e - LEN + j] != CHECKPATTERN[0]
  {
  }

  /** The pattern has no border: two occurrences never overlap. */
  lemma NoOverlap(s: seq<Byte>, e: nat, e': nat)
    requires OccursAt(s, e) && OccursAt(s, e') && e < e'
    ensures e + LEN <= e'
  {
    OccurrenceBytes(s, e', 0);
    if e' < e + LEN {
      OccurrenceBytes(s, e, e' - e);
    }
  }

  lemma OccursInPrefix(s: seq<Byte>, n: nat, e: nat)
    requires e <= n <= |s|
    ensures OccursAt(s[..n], e) <==> OccursAt(s, e)
    ensures OccursAt(s, e) ==> PayloadAt(s[..n], e) == PayloadAt(s, e)
  {
  }

  // ---------- The matcher as a function of the bytes ----------

  /** The window, and the payloads recorded so far. */
  datatype Matcher = Matcher(window: seq<Byte>, recorded: seq<Byte>)

  const START: Matcher := Matcher(Zeros(LEN), [])

  /** One received byte: slide the window; on a match record the byte that just left the
      window and clear it. */
  function Receive(m: Matcher, b: Byte): (m': Matcher)
    requires |m.window| == LEN
    ensures |m'.window| == LEN
  {
    var window := m.window[1..] + [b];
    if window == CHECKPATTERN then Matcher(Zeros(LEN), m.recorded + [m.window[0]])
    else Matcher(window, m.recorded)
  }

  function ReceiveAll(s: seq<Byte>): (m: Matcher)
    ensures |m.window| == LEN
  {
    if s == [] then START else Receive(ReceiveAll(s[..|s| - 1]), s[|s| - 1])
  }

  /** End of the last occurrence, or 0. */
  function LastEnd(s: seq<Byte>): (r: nat)
    ensures r <= |s|
  {
    if s == [] then 0
    else if OccursAt(s, |s|) then |s|
    else LastEnd(s[..|s| - 1])
  }

  /** `r` is 0 or the end of an occurrence, and no occurrence ends after it. */
  ghost predicate IsLastEnd(s: seq<Byte>, r: nat) {
    && r <= |s|
    && (r == 0 || OccursAt(s, r))
    && forall e: nat :: r < e <= |s| ==> !OccursAt(s, e)
  }

  lemma {:induction false} LastEndIsLast(s: seq<Byte>)
    ensures IsLastEnd(s, LastEnd(s))
  {
    if s != [] && !OccursAt(s, |s|) {
      LastEndIsLast(s[..|s| - 1]);
      SameLastEnd(s, LastEnd(s[..|s| - 1]));
    }
  }

  lemma SameLastEnd(s: seq<Byte>, r: nat)
    requires s != [] && !OccursAt(s, |s|) && IsLastEnd(s[..|s| - 1], r)
    ensures IsLastEnd(s, r)
  {
    forall e: nat | e < |s| ensures OccursAt(s[..|s| - 1], e) <==> OccursAt(s, e) {
      OccursInPrefix(s, |s| - 1, e);
    }
  }

  /** The last six bytes from position `r` on, padded with zeros in front. */
  function WindowFrom(s: seq<Byte>, r: nat): (w: seq<Byte>)
    requires r <= |s|
    ensures |w| == LEN
  {
    var recent := Zeros(LEN) + s[r..];
    recent[|recent| - LEN..]
  }

  lemma WindowAt(s: seq<Byte>, r: nat, i: nat)
    requires r <= |s| && i < LEN
    ensures WindowFrom(s, r)[i] == if |s| - r + i < LEN then 0 else s[|s| - LEN + i]
  {
  }

  lemma WindowSlides(s: seq<Byte>, r: nat, b: Byte)
    requires r <= |s|
    ensures WindowFrom(s + [b], r) == WindowFrom(s, r)[1..] + [b]
  {
  }

  /** The window shows the pattern exactly when the stream ends with an occurrence. */
  lemma WindowMatches(s: seq<Byte>, r: nat)
    requires r <= |s| && (r == 0 || OccursAt(s, r))
    requires r < |s|
    ensures WindowFrom(s, r) == CHECKPATTERN <==> OccursAt(s, |s|)
  {
    var n := |s|;
    if OccursAt(s, n) {
      if r > 0 {
        NoOverlap(s, r, n);
      }
      assert WindowFrom(s, r) == s[n - LEN..n];
    }
    if WindowFrom(s, r) == CHECKPATTERN {
      WindowAt(s, r, 0);
      assert WindowFrom(s, r)[0] == CHECKPATTERN[0];
      assert WindowFrom(s, r) == s[n - LEN..n];
    }
  }

  /** The last match ended before the new occurrence begins, and right there if it has payload 0. */
  lemma LastEndBeforeOccurrence(s: seq<Byte>, r: nat, b: Byte)
    requires IsLastEnd(s, r)
    requires OccursAt(s + [b], |s| + 1)
    ensures r <= |s| + 1 - LEN
    ensures r == |s| + 1 - LEN <==> |s| + 1 == LEN || OccursAt(s + [b], |s| + 1 - LEN)
  {
    var t, n := s + [b], |s| + 1;
    assert t[..n - 1] == s;
    OccursInPrefix(t, n - 1, r);
    if r > 0 {
      NoOverlap(t, r, n);
    }
    if n > LEN {
      OccursInPrefix(t, n - 1, n - LEN);
    }
  }

  /** What the matcher records for an occurrence is the payload of that occurrence. */
  lemma EvictedByteIsPayload(s: seq<Byte>, r: nat, b: Byte)
    requires IsLastEnd(s, r)
    requires OccursAt(s + [b], |s| + 1)
    ensures WindowFrom(s, r)[0] == PayloadAt(s + [b], |s| + 1)
  {
    LastEndBeforeOccurrence(s, r, b);
    WindowAt(s, r, 0);
  }

  /** The window after one more byte, before it is cleared, shows whether a match ends here. */
  lemma NextWindow(s: seq<Byte>, r: nat, b: Byte)
    requires IsLastEnd(s, r)
    ensures var w := WindowFrom(s, r)[1..] + [b];
            && w == WindowFrom(s + [b], r)
            && (w == CHECKPATTERN <==> OccursAt(s + [b], |s| + 1))
  {
    assert (s + [b])[..|s|] == s;
    OccursInPrefix(s + [b], |s|, r);
    WindowSlides(s, r, b);
    WindowMatches(s + [b], r);
  }

  /** One step of the matcher, as a statement about the stream. */
  lemma ReceiveOne(s: seq<Byte>, r: nat, b: Byte, recorded: seq<Byte>)
    requires IsLastEnd(s, r)
    ensures var t, n := s + [b], |s| + 1;
            Receive(Matcher(WindowFrom(s, r), recorded), b)
            == if OccursAt(t, n) then Matcher(WindowFrom(t, n), recorded + [PayloadAt(t, n)])
               else Matcher(WindowFrom(t, r), recorded)
  {
    NextWindow(s, r, b);
    if OccursAt(s + [b], |s| + 1) {
      EvictedByteIsPayload(s, r, b);
      FreshWindow(s + [b]);
    }
  }

  /** How the functions of the stream grow with its last byte. */
  lemma Grows(s: seq<Byte>)
    requires s != []
    ensures var p, n := s[..|s| - 1], |s|;
            && ReceiveAll(s) == Receive(ReceiveAll(p), s[n - 1])
            && Payloads(s) == (if OccursAt(s, n) then Payloads(p) + [PayloadAt(s, n)] else Payloads(p))
            && LastEnd(s) == (if OccursAt(s, n) then n else LastEnd(p))
  {
  }

  /** The state that the matcher should have after `s`, given where the last match ended. */
  function StateAfter(s: seq<Byte>, r: nat, recorded: seq<Byte>): Matcher
    requires r <= |s|
  {
    Matcher(WindowFrom(s, r), recorded)
  }

  lemma StartState()
    ensures ReceiveAll([]) == StateAfter([], 0, Payloads([])) && LastEnd([]) == 0
  {
  }

  /** The whole matcher state, as a statement about the stream. */
  lemma {:induction false} MatcherState(s: seq<Byte>)
    ensures ReceiveAll(s) == StateAfter(s, LastEnd(s), Payloads(s))
  {
    if s == [] {
      StartState();
    } else {
      var p, b := s[..|s| - 1], s[|s| - 1];
      assert p + [b] == s;
      MatcherState(p);
      LastEndIsLast(p);
      ReceiveOne(p, LastEnd(p), b, Payloads(p));
      Grows(s);
    }
  }

  lemma FreshWindow(s: seq<Byte>)
    ensures WindowFrom(s, |s|) == Zeros(LEN)
  {
  }

  /** The matcher fires on exactly the bytes that complete an occurrence. */
  lemma FiresOnOccurrence(s: seq<Byte>, b: Byte)
    ensures ReceiveAll(s).window[1..] + [b] == CHECKPATTERN <==> OccursAt(s + [b], |s| + 1)
  {
    MatcherState(s);
    LastEndIsLast(s);
    NextWindow(s, LastEnd(s), b);
  }

  /** For every byte stream the recorded payloads are those of all pattern occurrences in it,
      in order: clearing the window on a match loses no later match. */
  lemma RecordsEveryPacket(s: seq<Byte>)
    ensures ReceiveAll(s).recorded == Payloads(s)
  {
    MatcherState(s);
  }
}
