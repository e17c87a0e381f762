/** The pass over a message that scrubs it for each sensitive header in turn. */
module LogHeaders {
  import opened Sequences
  import opened Text
  import opened LogScrubber
  import opened LogScrubberFacts

  function Needle(header: string): string { header + "=" }

  predicate Occurs(msg: string, header: string) {
    exists k | 0 <= k <= |msg| :: Starts(msg[k..], Needle(header))
  }

  /** Each header that occurs rewrites the original message, so the last of them decides. */
  function Filtered(msg: string, headers: seq<string>): string {
    if headers == [] then msg
    else
      var last := headers[|headers| - 1];
      if Occurs(msg, last) then Scrubbed(msg, Needle(last)) else Filtered(msg, headers[..|headers| - 1])
  }

  lemma OccursIsFound(msg: string, header: string)
    ensures Occurs(msg, header) <==> Find(Lower(msg), Needle(header), 0).Some?
  {
    forall k | 0 <= k <= |msg|
      ensures Starts(msg[k..], Needle(header)) <==> StandsAt(Lower(msg), Needle(header), k)
    {
      StartsAt(msg, Needle(header), k);
    }
    var found := Find(Lower(msg), Needle(header), 0);
    if found.Some? {
      assert Starts(msg[found.value..], Needle(header));
    }
  }

  method FilterMessage(msg: string, headers: seq<string>) returns (out: string)
    requires forall header | header in headers :: IsNeedle(Needle(header))
    ensures out == Filtered(msg, headers)
  {
    out := msg;
    for i := 0 to |headers|
      invariant out == Filtered(msg, headers[..i])
    {
      var needle := Needle(headers[i]);
      assert headers[..i + 1][..i] == headers[..i];
      OccursIsFound(msg, headers[i]);
      if Find(Lower(msg), needle, 0).Some? {
        out := ScrubInlineKv(msg, needle);
      }
    }
    assert headers[..|headers|] == headers;
  }

  /** Every header of the set is followed by the mark wherever it occurs. */
  ghost predicate AllMarked(s: string, headers: set<string>) {
    forall header, k | header in headers && 0 <= k <= |s| && Starts(s[k..], Needle(header)) ::
      Marked(s, Needle(header), k)
  }

  /** Needles none of which ends in another. */
  predicate Separable(headers: set<string>) {
    && (forall header | header in headers :: IsNeedle(Needle(header)))
    && (forall g, h | g in headers && h in headers && g != h :: !EndsWith(Needle(g), Needle(h)))
  }

  lemma EndsWithChar(s: string, end: string, i: nat)
    requires EndsWith(s, end) && i < |end|
    ensures s[|s| - |end| + i] == end[i]
  {
    assert s[|s| - |end|..][i] == end[i];
  }

  lemma KnownHeadersAreSeparable()
    ensures Separable(SENSITIVE_HEADERS)
  {
    forall header | header in SENSITIVE_HEADERS
      ensures IsNeedle(Needle(header))
    {
      HeadersMakeNeedles(header);
    }
    forall g, h | g in SENSITIVE_HEADERS && h in SENSITIVE_HEADERS && g != h
      ensures !EndsWith(Needle(g), Needle(h))
    {
      if EndsWith(Needle(g), Needle(h)) {
        EndsWithChar(Needle(g), Needle(h), |Needle(h)| - 2);
        EndsWithChar(Needle(g), Needle(h), 0);
      }
    }
  }

  predicate IsOrder(order: seq<string>, headers: set<string>) { NoDuplicates(order) && ToSet(order) == headers }

  // ---------------------------------------------------------------- orders

  lemma SomeOrder(headers: set<string>) returns (order: seq<string>)
    ensures IsOrder(order, headers)
    decreases |headers|
  {
    if headers == {} {
      order := [];
    } else {
      var header :| header in headers;
      var front := SomeOrder(headers - {header});
      order := front + [header];
      ToSetSnoc(front, header);
      assert header !in ToSet(front);
    }
  }

  /** Any header that occurs can be the one that decides. */
  lemma OrderEndingIn(msg: string, headers: set<string>, header: string) returns (order: seq<string>)
    requires header in headers && Occurs(msg, header)
    ensures IsOrder(order, headers) && Filtered(msg, order) == Scrubbed(msg, Needle(header))
  {
    var front := SomeOrder(headers - {header});
    order := front + [header];
    ToSetSnoc(front, header);
    assert header !in ToSet(front);
  }

  lemma {:induction false} FilteredByLast(msg: string, headers: seq<string>)
    ensures || Filtered(msg, headers) == msg
            || exists header | header in headers ::
                 Occurs(msg, header) && Filtered(msg, headers) == Scrubbed(msg, Needle(header))
  {
    if headers == [] {
    } else {
      FilteredByLast(msg, headers[..|headers| - 1]);
      assert headers == headers[..|headers| - 1] + [headers[|headers| - 1]];
    }
  }

  // ---------------------------------------------------------------- messages the pass gets right

  lemma MarkedInTail(s: string, needle: string, d: nat, k: nat)
    requires d <= |s| && Marked(s, needle, d + k)
    ensures Marked(s[d..], needle, k)
  {
    var i := d + k + |needle|;
    assert s[d..][k + |needle|..] == s[i..];
    assert s[d..][k + |needle| + |REDACTED|..] == s[i + |REDACTED|..];
  }

  lemma MarkedTail(s: string, needle: string, d: nat, rest: string)
    requires d <= |s| && rest == s[d..]
    requires forall k | 0 <= k <= |s| && Starts(s[k..], needle) :: Marked(s, needle, k)
    ensures forall k | 0 <= k <= |rest| && Starts(rest[k..], needle) :: Marked(rest, needle, k)
  {
    forall k | 0 <= k <= |rest| && Starts(rest[k..], needle)
      ensures Marked(rest, needle, k)
    {
      assert rest[k..] == s[d + k..];
      MarkedInTail(s, needle, d, k);
    }
  }

  lemma MarkedHeadStays(s: string, needle: string, rest: string)
    requires IsNeedle(needle) && Starts(s, needle) && Marked(s, needle, 0)
    requires rest == s[|needle| + |REDACTED|..] && Scrubbed(rest, needle) == rest
    ensures Scrubbed(s, needle) == s
  {
    MarkedSplits(s, needle, s[..|needle|], rest);
    ScrubMarked(s[..|needle|], rest, needle);
  }

  lemma MarkedSplits(s: string, needle: string, head: string, rest: string)
    requires Starts(s, needle) && Marked(s, needle, 0) && head == s[..|needle|]
    requires rest == s[|needle| + |REDACTED|..]
    ensures s == head + REDACTED + rest && Starts(head, needle) && AtBoundary(rest)
  {
    assert head[..|needle|] == head;
    assert s[|needle|..][..|REDACTED|] == REDACTED;
  }

  /** A message whose needles are all followed by the mark already is left as it is. */
  lemma {:induction false} MarkedTextStays(s: string, needle: string)
    requires IsNeedle(needle)
    requires forall k | 0 <= k <= |s| && Starts(s[k..], needle) :: Marked(s, needle, k)
    ensures Scrubbed(s, needle) == s
    decreases |s|
  {
    if s == [] {
    } else if Starts(s, needle) {
      assert s[0..] == s;
      assert Marked(s, needle, 0);
      var rest := s[|needle| + |REDACTED|..];
      MarkedTail(s, needle, |needle| + |REDACTED|, rest);
      MarkedTextStays(rest, needle);
      MarkedHeadStays(s, needle, rest);
    } else {
      var rest := s[1..];
      MarkedTail(s, needle, 1, rest);
      MarkedTextStays(rest, needle);
      ScrubPastNeedle(s, needle, rest);
      assert s == [s[0]] + rest;
    }
  }

  /** Up to its first needle a text stays, then comes the mark, and the rest is scrubbed on. */
  lemma {:induction false} ScrubbedByFirstEnd(s: string, needle: string, e: nat, rest: string, out: string)
    requires IsNeedle(needle) && FirstEnd(s, needle) == Some(e) && rest == s[TokenEnd(s, e)..]
    requires out == Scrubbed(rest, needle)
    ensures Scrubbed(s, needle) == s[..e] + REDACTED + out
    decreases |s|
  {
    if Starts(s, needle) {
      ScrubbedAtOnce(s, needle, e, rest, out);
    } else {
      assert Scrubbed(s, needle) == s[..e] + REDACTED + out by {
        FirstEndInTail(s, s[1..], needle, e, rest);
        ScrubbedByFirstEnd(s[1..], needle, e - 1, rest, out);
        ScrubbedLater(s, s[1..], needle, e - 1, out);
      }
    }
  }

  lemma FirstEndInTail(s: string, tail: string, needle: string, e: nat, rest: string)
    requires needle != [] && !Starts(s, needle) && FirstEnd(s, needle) == Some(e) && tail == s[1..]
    requires rest == s[TokenEnd(s, e)..]
    ensures 0 < e <= |s| && FirstEnd(tail, needle) == Some(e - 1) && rest == tail[TokenEnd(tail, e - 1)..]
    ensures |tail| < |s|
  {
    LaterFirstEnd(s, tail, needle, e);
    RestInTail(s, tail, e, rest);
  }

  lemma ScrubbedAtOnce(s: string, needle: string, e: nat, rest: string, out: string)
    requires IsNeedle(needle) && Starts(s, needle) && FirstEnd(s, needle) == Some(e) && rest == s[TokenEnd(s, e)..]
    requires out == Scrubbed(rest, needle)
    ensures Scrubbed(s, needle) == s[..e] + REDACTED + out
  {
    ScrubAtNeedle(s, needle, s[..|needle|], rest);
  }

  lemma LaterFirstEnd(s: string, tail: string, needle: string, e: nat)
    requires needle != [] && !Starts(s, needle) && FirstEnd(s, needle) == Some(e) && |tail| < |s| && tail == s[1..]
    ensures 0 < e <= |s| && FirstEnd(tail, needle) == Some(e - 1)
  {
  }

  lemma RestInTail(s: string, tail: string, e: nat, rest: string)
    requires s != [] && tail == s[1..] && 0 < e <= |s| && rest == s[TokenEnd(s, e)..]
    ensures rest == tail[TokenEnd(tail, e - 1)..]
  {
    TokenEndInTail(s, 1, e);
  }

  lemma ScrubbedLater(s: string, tail: string, needle: string, e: nat, out: string)
    requires needle != [] && s != [] && !Starts(s, needle) && tail == s[1..] && e <= |tail|
    requires Scrubbed(tail, needle) == tail[..e] + REDACTED + out
    ensures Scrubbed(s, needle) == s[..e + 1] + REDACTED + out
  {
    ScrubPastNeedle(s, needle, tail);
    OneMoreInFront(s, tail, e, out);
  }

  lemma OneMoreInFront(s: string, tail: string, e: nat, rest: string)
    requires s != [] && tail == s[1..] && e <= |tail|
    ensures [s[0]] + (tail[..e] + REDACTED + rest) == s[..e + 1] + REDACTED + rest
  {
    assert s[..e + 1] == [s[0]] + tail[..e];
  }

  lemma {:induction false} ScrubbedWithoutNeedle(s: string, needle: string)
    requires IsNeedle(needle) && FirstEnd(s, needle) == None
    ensures Scrubbed(s, needle) == s
  {
    if s == [] {
    } else {
      ScrubbedWithoutNeedle(s[1..], needle);
      ScrubPastNeedle(s, needle, s[1..]);
      assert s == [s[0]] + s[1..];
    }
  }

  lemma StartsInCommon(a: string, b: string, needle: string, k: nat, m: nat)
    requires k + |needle| <= m <= |a| && m <= |b| && a[..m] == b[..m] && Starts(a[k..], needle)
    ensures Starts(b[k..], needle)
  {
    assert a[k..][..|needle|] == a[..m][k..k + |needle|];
    assert b[k..][..|needle|] == b[..m][k..k + |needle|];
  }

  /** Scrubbing for one header brings no other header about. */
  lemma {:induction false} NoNewNeedles(s: string, out: string, needle: string, other: string, k: nat) returns (j: nat)
    requires IsNeedle(needle) && IsNeedle(other) && out == Scrubbed(s, needle)
    requires k <= |out| && Starts(out[k..], other)
    ensures j <= |s| && Starts(s[j..], other)
    decreases |s|
  {
    if FirstEnd(s, needle) == None {
      ScrubbedWithoutNeedle(s, needle);
      j := k;
    } else {
      var e := FirstEnd(s, needle).value;
      var end, m := TokenEnd(s, e), e + |REDACTED|;
      var rest := s[end..];
      var outRest := Scrubbed(rest, needle);
      ScrubbedByFirstEnd(s, needle, e, rest, outRest);
      TokenEndIsBoundary(s, e);
      BoundaryStays(rest, needle);
      if k < m {
        NeedleBeforeCut(s, out, e, outRest, other, k);
        j := k;
      } else {
        AfterMark(s[..e], out, outRest, k);
        var i := NoNewNeedles(rest, outRest, needle, other, k - m);
        DropTwice(s, end, rest, i);
        j := end + i;
      }
    }
  }

  lemma AfterMark(head: string, out: string, outRest: string, k: nat)
    requires out == head + REDACTED + outRest && |head| + |REDACTED| <= k <= |out|
    ensures out[k..] == outRest[k - |head| - |REDACTED|..]
  {
  }

  lemma DropTwice(s: string, end: nat, rest: string, i: nat)
    requires end <= |s| && rest == s[end..] && i <= |rest|
    ensures rest[i..] == s[end + i..]
  {
  }

  lemma NeedleBeforeCut(s: string, out: string, e: nat, outRest: string, other: string, k: nat)
    requires IsNeedle(other) && AtBoundary(outRest) && e <= |s| && out == s[..e] + REDACTED + outRest
    requires k < e + |REDACTED| && Starts(out[k..], other)
    ensures k <= |s| && Starts(s[k..], other)
  {
    OtherNeedleBeforeMark(s[..e], outRest, other, k);
    assert out[..e] == s[..e];
    StartsInCommon(out, s, other, k, e);
  }

  lemma OtherNeedleBeforeMark(head: string, rest: string, other: string, k: nat)
    requires IsNeedle(other) && AtBoundary(rest) && k < |head| + |REDACTED|
    requires Starts((head + REDACTED + rest)[k..], other)
    ensures k + |other| <= |head|
  {
    var s, n, m := head + REDACTED + rest, |other|, |head| + |REDACTED|;
    assert s[k..][n - 1] == s[k + n - 1];
    StartsEndsInEquals(s[k..], other);
    if k + n > m {
      StartsBeforeSpace(s[k..], other, m - k);
    }
  }

  lemma OneHeaderIsMarked(msg: string, headers: set<string>, header: string)
    requires Separable(headers) && header in headers
    requires forall other | other in headers && Occurs(msg, other) :: other == header
    ensures AllMarked(Scrubbed(msg, Needle(header)), headers)
  {
    var out := Scrubbed(msg, Needle(header));
    forall other, k | other in headers && 0 <= k <= |out| && Starts(out[k..], Needle(other))
      ensures Marked(out, Needle(other), k)
    {
      var j := NoNewNeedles(msg, out, Needle(header), Needle(other), k);
      assert Occurs(msg, other);
      EveryHeaderIsMarked(msg, Needle(header), k);
    }
  }

  // ---------------------------------------------------------------- messages it cannot get right

  /** The stretch without white space around a position, and what stands before and after it. */
  lemma TokenAround(s: string, k: nat) returns (before: string, token: string, rest: string)
    requires k < |s| && !IsSpace(s[k])
    ensures s == before + token + rest && |before| <= k < |before| + |token|
    ensures NoSpace(token) && AtBoundary(rest) && (before == [] || IsSpace(before[|before| - 1]))
  {
    var i := k;
    while i > 0 && !IsSpace(s[i - 1])
      invariant 0 <= i <= k && NoSpace(s[i..k + 1])
    {
      assert s[i - 1..k + 1] == [s[i - 1]] + s[i..k + 1];
      i := i - 1;
    }
    var end := TokenEnd(s, k + 1);
    TokenEndIsBoundary(s, k + 1);
    before, token, rest := s[..i], s[i..end], s[end..];
    TwoStretches(s, i, k + 1, end);
    assert s == s[..i] + s[i..end] + s[end..];
  }

  lemma TwoStretches(s: string, i: nat, m: nat, end: nat)
    requires i <= m <= end <= |s| && NoSpace(s[i..m]) && NoSpace(s[m..end])
    ensures NoSpace(s[i..end])
  {
    assert s[i..end] == s[i..m] + s[m..end];
  }

  lemma ScrubbedAfterSpace(whole: string, before: string, tail: string, needle: string)
    requires IsNeedle(needle) && whole == before + tail && (before == [] || IsSpace(before[|before| - 1]))
    ensures Scrubbed(whole, needle) == Scrubbed(before, needle) + Scrubbed(tail, needle)
  {
    if before == [] {
      assert whole == tail;
    } else {
      var front, c := before[..|before| - 1], before[|before| - 1];
      assert before == front + [c] && whole == front + ([c] + tail) && [c] == [c] + [];
      ScrubSplits(whole, front, [c] + tail, needle);
      ScrubSplits(before, front, [c], needle);
      SpacePasses(c, tail, needle);
      SpacePasses(c, [], needle);
      SpliceTwice(Scrubbed(front, needle), [c], Scrubbed(tail, needle));
    }
  }

  /** A stretch is scrubbed where it stands. */
  lemma ScrubbedAround(whole: string, before: string, token: string, rest: string, needle: string)
    requires IsNeedle(needle) && AtBoundary(rest) && (before == [] || IsSpace(before[|before| - 1]))
    requires whole == before + token + rest
    ensures Scrubbed(whole, needle) == Scrubbed(before, needle) + Scrubbed(token, needle) + Scrubbed(rest, needle)
  {
    assert whole == before + (token + rest);
    ScrubbedAfterSpace(whole, before, token + rest, needle);
    ScrubSplits(token + rest, token, rest, needle);
    SpliceTwice(Scrubbed(before, needle), Scrubbed(token, needle), Scrubbed(rest, needle));
  }

  /** Where the mark and nothing else fits between a position and the next white space. */
  lemma OnlyTheMarkFits(tail: string, rest: string)
    requires NoSpace(tail) && AtBoundary(rest) && |REDACTED| <= |tail + rest|
    requires (tail + rest)[..|REDACTED|] == REDACTED && AtBoundary((tail + rest)[|REDACTED|..])
    ensures tail == REDACTED
  {
    var all := tail + rest;
    MarkIsPlain();
    assert all[0..|tail|] == tail && all[|tail|..] == rest;
    TokenEndIs(all, 0, |tail|);
    TokenEndIs(all, 0, |REDACTED|);
  }

  /** A needle inside a stretch is marked in the message only when the mark ends the stretch right after it. */
  lemma UnmarkedInToken(before: string, token: string, rest: string, needle: string, j: nat)
    requires NoSpace(token) && AtBoundary(rest) && j + |needle| <= |token| && token[j + |needle|..] != REDACTED
    ensures !Marked(before + token + rest, needle, |before| + j)
  {
    var s, i, tail := before + token + rest, |before| + j + |needle|, token[j + |needle|..];
    assert s[i..] == tail + rest;
    if Marked(s, needle, |before| + j) {
      assert s[i + |REDACTED|..] == s[i..][|REDACTED|..];
      OnlyTheMarkFits(tail, rest);
    }
  }

  lemma {:induction false} HitHasFirstEnd(s: string, needle: string, j: nat)
    requires needle != [] && j <= |s| && Starts(s[j..], needle)
    ensures FirstEnd(s, needle).Some?
  {
    if j == 0 {
      assert s[0..] == s;
    } else {
      assert s[1..][j - 1..] == s[j..];
      HitHasFirstEnd(s[1..], needle, j - 1);
    }
  }

  lemma {:induction false} FirstEndStarts(s: string, needle: string)
    requires FirstEnd(s, needle).Some?
    ensures Starts(s[FirstEnd(s, needle).value - |needle|..], needle)
  {
    if Starts(s, needle) {
      assert s[0..] == s;
    } else {
      FirstEndStarts(s[1..], needle);
      var e := FirstEnd(s[1..], needle).value;
      assert s[1..][e - |needle|..] == s[e + 1 - |needle|..];
    }
  }

  lemma EndsAtCut(s: string, needle: string, e: nat)
    requires |needle| <= e <= |s| && Starts(s[e - |needle|..], needle)
    ensures Lower(s)[e - |needle|..e] == needle
  {
    StartsAt(s, needle, e - |needle|);
  }

  lemma CommonEnd(lowered: string, a: string, b: string, e: nat)
    requires |a| <= e <= |lowered| && |b| <= e
    requires lowered[e - |a|..e] == a && lowered[e - |b|..e] == b
    ensures EndsWith(a, b) || EndsWith(b, a)
  {
    if |b| <= |a| {
      assert a[|a| - |b|..] == lowered[e - |b|..e];
    } else {
      assert b[|b| - |a|..] == lowered[e - |a|..e];
    }
  }

  lemma EndsMeet(s: string, a: string, b: string, e: nat)
    requires FirstEnd(s, a) == Some(e) && FirstEnd(s, b) == Some(e)
    ensures EndsWith(a, b) || EndsWith(b, a)
  {
    FirstEndStarts(s, a);
    FirstEndStarts(s, b);
    EndsAtCut(s, a, e);
    EndsAtCut(s, b, e);
    CommonEnd(Lower(s), a, b, e);
  }

  /** Different headers never end at one place. */
  lemma EndsDiffer(s: string, headers: set<string>, g: string, h: string, e: nat)
    requires Separable(headers) && g in headers && h in headers && g != h
    requires FirstEnd(s, Needle(g)) == Some(e)
    ensures FirstEnd(s, Needle(h)) != Some(e)
  {
    if FirstEnd(s, Needle(h)) == Some(e) {
      EndsMeet(s, Needle(g), Needle(h), e);
    }
  }

  /** After a cut, a needle that ended before it is not followed by the mark alone. */
  lemma EarlierNeedleUnmarked(token: string, needle: string, cut: nat, e: nat)
    requires IsNeedle(needle) && FirstEnd(token, needle) == Some(e) && e < cut <= |token|
    ensures var out, j := token[..cut] + REDACTED, e - |needle|;
            j + |needle| <= |out| && Starts(out[j..], needle) && out[j + |needle|..] != REDACTED
  {
    var out, j := token[..cut] + REDACTED, e - |needle|;
    FirstEndStarts(token, needle);
    assert out[j..][..|needle|] == token[j..][..|needle|];
    assert |out[e..]| > |REDACTED|;
  }

  /** When another header's needle ends before that of the deciding one in a stretch, it is left unmarked. */
  lemma CutTokenShows(msg: string, before: string, token: string, rest: string, headers: set<string>, deciding: string,
                      other: string, cut: nat, e: nat)
    requires Separable(headers) && deciding in headers && other in headers && msg == before + token + rest
    requires NoSpace(token) && AtBoundary(rest) && (before == [] || IsSpace(before[|before| - 1]))
    requires FirstEnd(token, Needle(deciding)) == Some(cut) && FirstEnd(token, Needle(other)) == Some(e) && e < cut
    ensures !AllMarked(Scrubbed(msg, Needle(deciding)), headers)
  {
    var needle, out := Needle(deciding), token[..cut] + REDACTED;
    ScrubbedAround(msg, before, token, rest, needle);
    TokenIsCut(token, needle);
    EarlierNeedleUnmarked(token, Needle(other), cut, e);
    MarkIsPlain();
    BoundaryStays(rest, needle);
    UnmarkedStays(Scrubbed(before, needle), out, Scrubbed(rest, needle), headers, other, e - |Needle(other)|);
  }

  lemma UnmarkedStays(before: string, token: string, rest: string, headers: set<string>, header: string, j: nat)
    requires header in headers && NoSpace(token) && AtBoundary(rest)
    requires j + |Needle(header)| <= |token| && Starts(token[j..], Needle(header))
    requires token[j + |Needle(header)|..] != REDACTED
    ensures !AllMarked(before + token + rest, headers)
  {
    var s, needle := before + token + rest, Needle(header);
    UnmarkedInToken(before, token, rest, needle, j);
    assert s[|before| + j..][..|needle|] == token[j..][..|needle|];
    assert Starts(s[|before| + j..], needle);
  }

  /** A stretch without the deciding needle keeps what is unmarked in it. */
  lemma UncutTokenShows(msg: string, before: string, token: string, rest: string, headers: set<string>,
                        deciding: string,
                        other: string, j: nat)
    requires Separable(headers) && deciding in headers && other in headers && msg == before + token + rest
    requires NoSpace(token) && AtBoundary(rest) && (before == [] || IsSpace(before[|before| - 1]))
    requires FirstEnd(token, Needle(deciding)) == None
    requires j + |Needle(other)| <= |token| && Starts(token[j..], Needle(other))
    requires token[j + |Needle(other)|..] != REDACTED
    ensures !AllMarked(Scrubbed(msg, Needle(deciding)), headers)
  {
    ScrubbedAround(msg, before, token, rest, Needle(deciding));
    TokenIsCut(token, Needle(deciding));
    BoundaryStays(rest, Needle(deciding));
    UnmarkedStays(Scrubbed(before, Needle(deciding)), token, Scrubbed(rest, Needle(deciding)), headers, other, j);
  }

  lemma NeedleStaysInToken(before: string, token: string, rest: string, needle: string, j: nat)
    requires IsNeedle(needle) && AtBoundary(rest) && j < |token|
    requires Starts((before + token + rest)[|before| + j..], needle)
    ensures j + |needle| <= |token| && Starts(token[j..], needle)
  {
    var s := before + token + rest;
    assert s[|before| + j..] == token[j..] + rest;
    StartsInFront(token[j..], rest, needle);
  }

  lemma MarkedInMessage(before: string, token: string, rest: string, needle: string, j: nat)
    requires AtBoundary(rest) && j + |needle| <= |token| && token[j + |needle|..] == REDACTED
    ensures Marked(before + token + rest, needle, |before| + j)
  {
    var s, i := before + token + rest, |before| + j + |needle|;
    assert s[i..] == REDACTED + rest;
    assert s[i + |REDACTED|..] == rest;
  }

  lemma NeedleStartsPlain(msg: string, needle: string, k: nat)
    requires IsNeedle(needle) && k <= |msg| && Starts(msg[k..], needle)
    ensures k < |msg| && !IsSpace(msg[k])
  {
    NeedleHasNoSpace(msg[k..], needle);
    assert msg[k..][..|needle|][0] == msg[k];
  }

  lemma UnmarkedToken(msg: string, needle: string, k: nat)
    returns (before: string, token: string, rest: string, j: nat)
    requires IsNeedle(needle) && k <= |msg| && Starts(msg[k..], needle) && !Marked(msg, needle, k)
    ensures msg == before + token + rest && NoSpace(token) && AtBoundary(rest)
    ensures before == [] || IsSpace(before[|before| - 1])
    ensures j + |needle| <= |token| && Starts(token[j..], needle) && token[j + |needle|..] != REDACTED
  {
    NeedleStartsPlain(msg, needle, k);
    before, token, rest := TokenAround(msg, k);
    j := k - |before|;
    NeedleStaysInToken(before, token, rest, needle, j);
    if token[j + |needle|..] == REDACTED {
      MarkedInMessage(before, token, rest, needle, j);
    }
  }

  /** With an unmarked header and another one in the message, deciding by one of the two leaves something unmarked. */
  lemma SomeDecisionShows(msg: string, headers: set<string>, unmarked: string, other: string, k: nat)
    requires Separable(headers) && unmarked in headers && other in headers && unmarked != other
    requires k <= |msg| && Starts(msg[k..], Needle(unmarked)) && !Marked(msg, Needle(unmarked), k)
    ensures !AllMarked(Scrubbed(msg, Needle(unmarked)), headers) || !AllMarked(Scrubbed(msg, Needle(other)), headers)
  {
    var before, token, rest, j := UnmarkedToken(msg, Needle(unmarked), k);
    SomeDecisionShowsIn(msg, before, token, rest, headers, unmarked, other, j);
  }

  lemma SomeDecisionShowsIn(msg: string, before: string, token: string, rest: string, headers: set<string>,
                            unmarked: string, other: string, j: nat)
    requires Separable(headers) && unmarked in headers && other in headers && unmarked != other
    requires msg == before + token + rest && NoSpace(token) && AtBoundary(rest)
    requires before == [] || IsSpace(before[|before| - 1])
    requires j + |Needle(unmarked)| <= |token| && Starts(token[j..], Needle(unmarked))
    requires token[j + |Needle(unmarked)|..] != REDACTED
    ensures !AllMarked(Scrubbed(msg, Needle(unmarked)), headers) || !AllMarked(Scrubbed(msg, Needle(other)), headers)
  {
    HitHasFirstEnd(token, Needle(unmarked), j);
    var mine, theirs := FirstEnd(token, Needle(unmarked)).value, FirstEnd(token, Needle(other));
    if theirs == None {
      UncutTokenShows(msg, before, token, rest, headers, other, unmarked, j);
    } else {
      EndsDiffer(token, headers, unmarked, other, mine);
      if mine < theirs.value {
        CutTokenShows(msg, before, token, rest, headers, other, unmarked, theirs.value, mine);
      } else {
        CutTokenShows(msg, before, token, rest, headers, unmarked, other, mine, theirs.value);
      }
    }
  }

  // ---------------------------------------------------------------- the pass as a whole

  predicate AtMostOneOccurs(msg: string, headers: set<string>) {
    forall g, h | g in headers && h in headers && Occurs(msg, g) && Occurs(msg, h) :: g == h
  }

  lemma RedactedInOrder(msg: string, headers: set<string>, order: seq<string>)
    requires Separable(headers) && IsOrder(order, headers)
    requires AllMarked(msg, headers) || AtMostOneOccurs(msg, headers)
    ensures AllMarked(Filtered(msg, order), headers)
  {
    FilteredByLast(msg, order);
    if header :| header in order && Occurs(msg, header) && Filtered(msg, order) == Scrubbed(msg, Needle(header)) {
      assert header in ToSet(order);
      if AllMarked(msg, headers) {
        MarkedTextStays(msg, Needle(header));
      } else {
        OneHeaderIsMarked(msg, headers, header);
      }
    } else {
      NothingOccurs(msg, headers, order);
    }
  }

  /** When no header decides, none occurs. */
  lemma NothingOccurs(msg: string, headers: set<string>, order: seq<string>)
    requires IsOrder(order, headers)
    requires !exists header | header in order ::
               Occurs(msg, header) && Filtered(msg, order) == Scrubbed(msg, Needle(header))
    ensures Filtered(msg, order) == msg && AllMarked(msg, headers)
  {
    FilteredByLast(msg, order);
    DecidedWhenOccurring(msg, order);
    forall header | header in headers
      ensures !Occurs(msg, header)
    {
      assert header in ToSet(order);
    }
    NothingToMark(msg, headers);
  }

  lemma NothingToMark(msg: string, headers: set<string>)
    requires forall header | header in headers :: !Occurs(msg, header)
    ensures AllMarked(msg, headers)
  {
  }

  lemma {:induction false} DecidedWhenOccurring(msg: string, order: seq<string>)
    ensures (exists header | header in order :: Occurs(msg, header))
            ==> exists header | header in order ::
                  Occurs(msg, header) && Filtered(msg, order) == Scrubbed(msg, Needle(header))
  {
    if order == [] {
    } else {
      var front, last := order[..|order| - 1], order[|order| - 1];
      DecidedWhenOccurring(msg, front);
      assert order == front + [last];
    }
  }

  /**
   * The pass leaves every header followed by the mark, whatever the order of the headers, exactly when the message
   * was so already or at most one of the headers occurs in it.
   */
  lemma FilterRedactsExactly(msg: string, headers: set<string>)
    requires Separable(headers)
    ensures (forall order | IsOrder(order, headers) :: AllMarked(Filtered(msg, order), headers))
            <==> AllMarked(msg, headers) || AtMostOneOccurs(msg, headers)
  {
    if AllMarked(msg, headers) || AtMostOneOccurs(msg, headers) {
      forall order | IsOrder(order, headers)
        ensures AllMarked(Filtered(msg, order), headers)
      {
        RedactedInOrder(msg, headers, order);
      }
    } else {
      var unmarked, k :| unmarked in headers && 0 <= k <= |msg| && Starts(msg[k..], Needle(unmarked))
                         && !Marked(msg, Needle(unmarked), k);
      var g, h :| g in headers && h in headers && Occurs(msg, g) && Occurs(msg, h) && g != h;
      var other := if g == unmarked then h else g;
      assert Occurs(msg, unmarked);
      SomeDecisionShows(msg, headers, unmarked, other, k);
      var one := OrderEndingIn(msg, headers, unmarked);
      var two := OrderEndingIn(msg, headers, other);
      assert !AllMarked(Filtered(msg, one), headers) || !AllMarked(Filtered(msg, two), headers);
    }
  }

  /** The headers the program knows. */
  lemma KnownHeadersRedactedExactly(msg: string)
    ensures (forall order | IsOrder(order, SENSITIVE_HEADERS) :: AllMarked(Filtered(msg, order), SENSITIVE_HEADERS))
            <==> AllMarked(msg, SENSITIVE_HEADERS) || AtMostOneOccurs(msg, SENSITIVE_HEADERS)
  {
    KnownHeadersAreSeparable();
    FilterRedactsExactly(msg, SENSITIVE_HEADERS);
  }

  lemma NeedleStarts(needle: string, rest: string)
    requires NoCapitals(needle)
    ensures Starts(needle + rest, needle)
  {
    assert (needle + rest)[..|needle|] == needle;
    StartsInAnyCase(needle + rest, needle);
  }

  lemma FirstValueUnmarked(a: string, value: string, rest: string, msg: string)
    requires NoCapitals(a) && NoSpace(a) && NoSpace(value) && value != REDACTED && AtBoundary(rest)
    requires msg == a + value + rest
    ensures Starts(msg, a) && !Marked(msg, a, 0)
  {
    assert msg == a + (value + rest) && msg == [] + (a + value) + rest;
    NeedleStarts(a, value + rest);
    assert (a + value)[|a|..] == value;
    UnmarkedInToken([], a + value, rest, a, 0);
  }

  lemma SecondNeedleStands(before: string, b: string, other: string, msg: string)
    requires NoCapitals(b) && msg == before + (b + other)
    ensures Starts(msg[|before|..], b)
  {
    assert msg[|before|..] == b + other;
    NeedleStarts(b, other);
  }

  lemma TwoNeedlesDefeatThePass(msg: string, headers: set<string>, g: string, h: string, k: nat)
    returns (order: seq<string>)
    requires Separable(headers) && g in headers && h in headers && g != h
    requires Starts(msg, Needle(g)) && !Marked(msg, Needle(g), 0)
    requires k <= |msg| && Starts(msg[k..], Needle(h))
    ensures IsOrder(order, headers) && !AllMarked(Filtered(msg, order), headers)
  {
    assert msg[0..] == msg;
    assert Occurs(msg, g) && Occurs(msg, h);
    FilterRedactsExactly(msg, headers);
    order :| IsOrder(order, headers) && !AllMarked(Filtered(msg, order), headers);
  }

  /** So a message that gives two of them values keeps one value under some order. */
  lemma TwoValuesDefeatThePass(g: string, h: string, value: string, other: string, msg: string)
    returns (order: seq<string>)
    requires g in SENSITIVE_HEADERS && h in SENSITIVE_HEADERS && g != h
    requires NoSpace(value) && value != REDACTED
    requires msg == Needle(g) + value + (" " + (Needle(h) + other))
    ensures IsOrder(order, SENSITIVE_HEADERS) && !AllMarked(Filtered(msg, order), SENSITIVE_HEADERS)
  {
    KnownHeadersAreSeparable();
    HeadersMakeNeedles(g);
    HeadersMakeNeedles(h);
    HeadersMakeNeedles(g);
    var before := Needle(g) + value + " ";
    FirstValueUnmarked(Needle(g), value, " " + (Needle(h) + other), msg);
    assert msg == before + (Needle(h) + other);
    SecondNeedleStands(before, Needle(h), other, msg);
    order := TwoNeedlesDefeatThePass(msg, SENSITIVE_HEADERS, g, h, |before|);
  }
}
