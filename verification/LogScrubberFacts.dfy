/** What scrubbing guarantees about a message. */
module LogScrubberFacts {
  import opened Sequences
  import opened Text
  import opened LogScrubber

  predicate AtBoundary(s: string) { s == [] || IsSpace(s[0]) }

  lemma StartsChar(s: string, needle: string, j: nat)
    requires Starts(s, needle) && j < |needle|
    ensures LowerChar(s[j]) == needle[j]
  {
    SameLoweredIs(s[..|needle|], needle);
    assert Lower(s[..|needle|])[j] == needle[j];
  }

  /** A needle without white space does not reach over any. */
  lemma StartsBeforeSpace(s: string, needle: string, e: nat)
    requires IsNeedle(needle) && Starts(s, needle) && e < |s| && IsSpace(s[e])
    ensures |needle| <= e
  {
    if e < |needle| {
      StartsChar(s, needle, e);
    }
  }

  lemma BoundaryDoesNotStart(s: string, needle: string)
    requires IsNeedle(needle) && AtBoundary(s)
    ensures !Starts(s, needle)
  {
    if Starts(s, needle) {
      StartsBeforeSpace(s, needle, 0);
    }
  }

  lemma BoundaryStays(s: string, needle: string)
    requires IsNeedle(needle) && AtBoundary(s)
    ensures AtBoundary(Scrubbed(s, needle))
  {
    BoundaryDoesNotStart(s, needle);
  }

  lemma {:induction false} TokenEndIsBoundary(s: string, i: nat)
    requires i <= |s|
    ensures AtBoundary(s[TokenEnd(s, i)..]) && NoSpace(s[i..TokenEnd(s, i)])
    decreases |s| - i
  {
    if i == |s| || IsSpace(s[i]) {
    } else {
      TokenEndIsBoundary(s, i + 1);
      assert s[i..TokenEnd(s, i)] == [s[i]] + s[i + 1..TokenEnd(s, i)];
    }
  }

  /** Where the token goes on with something that has no white space, up to a boundary. */
  lemma {:induction false} TokenEndIs(s: string, i: nat, e: nat)
    requires i <= e <= |s| && AtBoundary(s[e..]) && NoSpace(s[i..e])
    ensures TokenEnd(s, i) == e
    decreases e - i
  {
    if i == e {
    } else {
      assert s[i..e][0] == s[i] && s[i + 1..e] == s[i..e][1..];
      TokenEndIs(s, i + 1, e);
    }
  }

  // ---------------------------------------------------------------- white space

  lemma NeedleHasNoSpace(s: string, needle: string)
    requires IsNeedle(needle) && Starts(s, needle)
    ensures NoSpace(s[..|needle|])
  {
    forall j | 0 <= j < |needle|
      ensures !IsSpace(s[..|needle|][j])
    {
      StartsChar(s, needle, j);
    }
  }

  lemma SpacesOfSpaceless(s: string)
    requires NoSpace(s)
    ensures Filter(s, IsSpace) == []
  {
    FilterNone(s, IsSpace);
  }

  lemma MarkIsPlain()
    ensures NoSpace(REDACTED) && '=' !in REDACTED
  {
  }

  /** The white space of a message survives, in order. */
  lemma {:induction false} SpacesSurvive(s: string, needle: string)
    requires IsNeedle(needle)
    ensures Filter(Scrubbed(s, needle), IsSpace) == Filter(s, IsSpace)
    decreases |s|
  {
    if s == [] {
    } else {
      if Starts(s, needle) {
        var rest := s[TokenEnd(s, |needle|)..];
        SpacesSurvive(rest, needle);
        SpacesAroundMark(s, needle, rest, Scrubbed(rest, needle));
        ScrubAtNeedle(s, needle, s[..|needle|], rest);
      } else {
        ScrubPastNeedle(s, needle, s[1..]);
        SpacesSurvive(s[1..], needle);
        FilterAppend([s[0]], Scrubbed(s[1..], needle), IsSpace);
        FilterAppend([s[0]], s[1..], IsSpace);
        assert s == [s[0]] + s[1..];
      }
    }
  }

  lemma SpacesAroundMark(s: string, needle: string, rest: string, outRest: string)
    requires IsNeedle(needle) && Starts(s, needle) && rest == s[TokenEnd(s, |needle|)..]
    ensures Filter(s, IsSpace) == Filter(rest, IsSpace)
    ensures Filter(s[..|needle|] + REDACTED + outRest, IsSpace) == Filter(outRest, IsSpace)
  {
    var head, value := s[..|needle|], s[|needle|..TokenEnd(s, |needle|)];
    NeedleHasNoSpace(s, needle);
    TokenEndIsBoundary(s, |needle|);
    MarkIsPlain();
    SpacesAfter(head, value, rest);
    SpacesAfter(head, REDACTED, outRest);
    assert s == head + value + rest;
  }

  lemma SpacesAfter(head: string, value: string, rest: string)
    requires NoSpace(head) && NoSpace(value)
    ensures Filter(head + value + rest, IsSpace) == Filter(rest, IsSpace)
  {
    SpacesOfSpaceless(head + value);
    FilterAppend(head + value, rest, IsSpace);
  }

  // ---------------------------------------------------------------- any case

  /** A text starts with a needle exactly when its first letters are those of the needle but for their case. */
  lemma StartsInAnyCase(s: string, needle: string)
    requires NoCapitals(needle)
    ensures Starts(s, needle) <==> |needle| <= |s| && SameSpelling(s[..|needle|], needle)
  {
    if |needle| <= |s| {
      SameLoweredIs(s[..|needle|], needle);
      LowerForgetsCase(s[..|needle|], needle);
      LowerKeepsLower(needle);
    }
  }

  /** A header in capitals or not gives its value away: it stays as it is spelled, the value becomes the mark, and
      the text from the next white space on is scrubbed by itself. */
  lemma ValueGivesWay(header: string, value: string, rest: string, needle: string)
    requires IsNeedle(needle) && NoCapitals(needle) && SameSpelling(header, needle)
    requires NoSpace(value) && (rest == [] || IsSpace(rest[0]))
    ensures Scrubbed(header + value + rest, needle) == header + REDACTED + Scrubbed(rest, needle)
  {
    var s, n := header + value + rest, |needle|;
    assert s[..n] == header && s[n..|header + value|] == value && s[|header + value|..] == rest;
    StartsInAnyCase(s, needle);
    TokenEndIs(s, n, |header + value|);
    ScrubAtNeedle(s, needle, header, rest);
  }

  // ---------------------------------------------------------------- idempotence

  /** Scrubbing keeps the first characters, as many as the needle has. */
  lemma {:induction false} HeadAgrees(s: string, needle: string)
    requires needle != []
    ensures if |s| < |needle| then Scrubbed(s, needle) == s
            else |Scrubbed(s, needle)| >= |needle| && Scrubbed(s, needle)[..|needle|] == s[..|needle|]
    decreases |s|
  {
    if s == [] {
    } else {
      if Starts(s, needle) {
        HeadAtNeedle(s, needle, s[..|needle|], s[TokenEnd(s, |needle|)..]);
      } else {
        HeadAgrees(s[1..], needle);
        ScrubPastNeedle(s, needle, s[1..]);
        HeadsOneLater(s, Scrubbed(s, needle), s[1..], Scrubbed(s[1..], needle), |needle|);
      }
    }
  }

  lemma HeadAtNeedle(s: string, needle: string, head: string, rest: string)
    requires needle != [] && Starts(s, needle) && head == s[..|needle|] && rest == s[TokenEnd(s, |needle|)..]
    ensures |Scrubbed(s, needle)| >= |needle| && Scrubbed(s, needle)[..|needle|] == head
  {
    ScrubAtNeedle(s, needle, head, rest);
  }

  lemma HeadsOneLater(s: string, out: string, rest: string, outRest: string, n: nat)
    requires s != [] && s == [s[0]] + rest && out == [s[0]] + outRest
    requires if |rest| < n then outRest == rest else |outRest| >= n && outRest[..n] == rest[..n]
    ensures if |s| < n then out == s else |out| >= n && out[..n] == s[..n]
  {
    if |rest| >= n {
      forall i | 0 <= i < n
        ensures out[i] == s[i]
      {
        assert i > 0 ==> outRest[i - 1] == outRest[..n][i - 1] == rest[..n][i - 1] == rest[i - 1];
      }
    }
  }

  lemma StartsKept(s: string, needle: string)
    requires needle != []
    ensures Starts(Scrubbed(s, needle), needle) <==> Starts(s, needle)
  {
    HeadAgrees(s, needle);
  }

  /** What a redacted header looks like to a second scan. */
  lemma ScrubMarked(head: string, rest: string, needle: string)
    requires IsNeedle(needle) && |head| == |needle| && Starts(head, needle) && AtBoundary(rest)
    ensures Starts(head + REDACTED + rest, needle)
    ensures Scrubbed(head + REDACTED + rest, needle) == head + REDACTED + Scrubbed(rest, needle)
  {
    var s := head + REDACTED + rest;
    var n, m := |needle|, |needle| + |REDACTED|;
    MarkIsPlain();
    assert s[..n] == head && head[..n] == head && s[m..] == rest && s[n..m] == REDACTED;
    TokenEndIs(s, n, m);
    ScrubAtNeedle(s, needle, head, rest);
  }

  /** Scrubbing twice is scrubbing once. */
  lemma {:induction false} ScrubbingIsIdempotent(s: string, needle: string)
    requires IsNeedle(needle)
    ensures Scrubbed(Scrubbed(s, needle), needle) == Scrubbed(s, needle)
    decreases |s|
  {
    if s == [] {
    } else {
      if Starts(s, needle) {
        var head, rest := s[..|needle|], s[TokenEnd(s, |needle|)..];
        ScrubAtNeedle(s, needle, head, rest);
        TokenEndIsBoundary(s, |needle|);
        BoundaryStays(rest, needle);
        assert head[..|needle|] == head;
        ScrubMarked(head, Scrubbed(rest, needle), needle);
        ScrubbingIsIdempotent(rest, needle);
      } else {
        var out := Scrubbed(s, needle);
        ScrubPastNeedle(s, needle, s[1..]);
        StartsKept(s, needle);
        ScrubPastNeedle(out, needle, Scrubbed(s[1..], needle));
        ScrubbingIsIdempotent(s[1..], needle);
      }
    }
  }

  // ---------------------------------------------------------------- nothing after a header but the mark

  /** After the needle at `k` come the mark and then white space or the end. */
  predicate Marked(s: string, needle: string, k: nat) {
    k + |needle| + |REDACTED| <= |s|
    && s[k + |needle|..][..|REDACTED|] == REDACTED
    && AtBoundary(s[k + |needle| + |REDACTED|..])
  }

  lemma StartsEndsInEquals(s: string, needle: string)
    requires IsNeedle(needle) && Starts(s, needle)
    ensures s[|needle| - 1] == '='
  {
    StartsChar(s, needle, |needle| - 1);
  }

  /** A needle can only start in a redacted stretch at its own beginning or after it. */
  lemma NoHeaderInsideMark(head: string, rest: string, needle: string, k: nat)
    requires IsNeedle(needle) && |head| == |needle| && AtBoundary(rest)
    requires 0 < k < |needle| + |REDACTED|
    ensures !Starts((head + REDACTED + rest)[k..], needle)
  {
    var s, n, m := head + REDACTED + rest, |needle|, |needle| + |REDACTED|;
    if Starts(s[k..], needle) {
      StartsEndsInEquals(s[k..], needle);
      if k + n <= m {
        assert s[k + n - 1] == REDACTED[k - 1];
        MarkIsPlain();
      } else {
        assert s[k..][m - k] == rest[0];
        StartsBeforeSpace(s[k..], needle, m - k);
      }
    }
  }

  /** Every needle left in a scrubbed message is followed by the mark and nothing else. */
  lemma {:induction false} EveryHeaderIsMarked(s: string, needle: string, k: nat)
    requires IsNeedle(needle) && k <= |Scrubbed(s, needle)| && Starts(Scrubbed(s, needle)[k..], needle)
    ensures Marked(Scrubbed(s, needle), needle, k)
    decreases |s|
  {
    var out := Scrubbed(s, needle);
    if s == [] {
    } else {
      if Starts(s, needle) {
        var head, rest, m := s[..|needle|], s[TokenEnd(s, |needle|)..], |needle| + |REDACTED|;
        var outRest := Scrubbed(rest, needle);
        ScrubAtNeedle(s, needle, head, rest);
        TokenEndIsBoundary(s, |needle|);
        BoundaryStays(rest, needle);
        if k == 0 {
          MarkStands(head, outRest, needle);
        } else if k < m {
          NoHeaderInsideMark(head, outRest, needle, k);
        } else {
          assert out[k..] == outRest[k - m..];
          EveryHeaderIsMarked(rest, needle, k - m);
          MarkedLater(head + REDACTED, outRest, needle, k - m);
        }
      } else {
        ScrubPastNeedle(s, needle, s[1..]);
        StartsKept(s, needle);
        assert out[0..] == out;
        assert out[k..] == Scrubbed(s[1..], needle)[k - 1..];
        EveryHeaderIsMarked(s[1..], needle, k - 1);
        MarkedLater([s[0]], Scrubbed(s[1..], needle), needle, k - 1);
      }
    }
  }

  /** In the output every header, in capitals or not, is followed by the mark and then by white space or the end. */
  lemma HeadersInAnyCaseAreMarked(s: string, out: string, needle: string, k: nat)
    requires IsNeedle(needle) && NoCapitals(needle) && out == Scrubbed(s, needle)
    requires k + |needle| <= |out| && SameSpelling(out[k..k + |needle|], needle)
    ensures Marked(out, needle, k)
  {
    assert out[k..][..|needle|] == out[k..k + |needle|];
    StartsInAnyCase(out[k..], needle);
    EveryHeaderIsMarked(s, needle, k);
  }

  lemma MarkStands(head: string, rest: string, needle: string)
    requires |head| == |needle| && AtBoundary(rest)
    ensures Marked(head + REDACTED + rest, needle, 0)
  {
    var s := head + REDACTED + rest;
    assert s[|needle|..][..|REDACTED|] == REDACTED && s[|needle| + |REDACTED|..] == rest;
  }

  lemma MarkedLater(before: string, s: string, needle: string, k: nat)
    requires Marked(s, needle, k)
    ensures Marked(before + s, needle, |before| + k)
  {
    var all, i := before + s, |before| + k + |needle|;
    assert all[i..] == s[k + |needle|..];
    assert all[i + |REDACTED|..] == s[k + |needle| + |REDACTED|..];
  }

  // ---------------------------------------------------------------- token by token

  /** Where the first needle ends. */
  function FirstEnd(s: string, needle: string): (r: Option<nat>)
    ensures r.Some? ==> |needle| <= r.value <= |s|
  {
    if Starts(s, needle) then Some(|needle|)
    else if s == [] then None
    else match FirstEnd(s[1..], needle) case None => None case Some(e) => Some(e + 1)
  }

  function Cut(s: string, end: Option<nat>): string
    requires end.Some? ==> end.value <= |s|
  {
    match end case None => s case Some(e) => s[..e] + REDACTED
  }

  /** In a stretch without white space everything after the first needle gives way to the mark. */
  lemma {:induction false} TokenIsCut(token: string, needle: string)
    requires IsNeedle(needle) && NoSpace(token)
    ensures Scrubbed(token, needle) == Cut(token, FirstEnd(token, needle))
  {
    if token == [] {
    } else {
      if Starts(token, needle) {
        TokenEndIs(token, |needle|, |token|);
        ScrubAtNeedle(token, needle, token[..|needle|], []);
      } else {
        TokenIsCut(token[1..], needle);
        ScrubPastNeedle(token, needle, token[1..]);
        CutLater(token, FirstEnd(token[1..], needle));
      }
    }
  }

  lemma CutLater(s: string, end: Option<nat>)
    requires s != [] && (end.Some? ==> end.value < |s|)
    ensures [s[0]] + Cut(s[1..], end) == Cut(s, if end.Some? then Some(end.value + 1) else None)
  {
    if end.Some? {
      assert s[..end.value + 1] == [s[0]] + s[1..][..end.value];
      SpliceTwice([s[0]], s[1..][..end.value], REDACTED);
    }
  }

  /** Scrubbing a text is scrubbing its parts, when the second begins with white space. */
  lemma {:induction false} ScrubSplits(whole: string, s: string, rest: string, needle: string)
    requires IsNeedle(needle) && AtBoundary(rest) && whole == s + rest
    ensures Scrubbed(whole, needle) == Scrubbed(s, needle) + Scrubbed(rest, needle)
    decreases |s|
  {
    if s == [] {
      assert whole == rest;
    } else {
      StartsInFront(s, rest, needle);
      if Starts(s, needle) {
        var after := s[TokenEnd(s, |needle|)..];
        ScrubSplits(after + rest, after, rest, needle);
        ScrubSplitsAfter(whole, s, rest, needle, after, Scrubbed(after, needle), Scrubbed(rest, needle));
      } else {
        var tail := s[1..];
        ScrubSplits(tail + rest, tail, rest, needle);
        ScrubSplitsPast(whole, s, rest, needle, tail, Scrubbed(tail, needle), Scrubbed(rest, needle));
      }
    }
  }

  lemma AfterInFront(whole: string, s: string, rest: string, needle: string)
    requires AtBoundary(rest) && whole == s + rest && |needle| <= |s|
    ensures whole[..|needle|] == s[..|needle|]
    ensures whole[TokenEnd(whole, |needle|)..] == s[TokenEnd(s, |needle|)..] + rest
  {
    TokenEndInFront(s, rest, |needle|);
    CutsInFront(whole, s, rest, |needle|, TokenEnd(s, |needle|));
  }

  lemma CutsInFront(whole: string, s: string, rest: string, n: nat, e: nat)
    requires whole == s + rest && n <= |s| && e <= |s|
    ensures whole[..n] == s[..n] && whole[e..] == s[e..] + rest
  {
  }

  lemma ScrubSplitsAfter(whole: string, s: string, rest: string, needle: string, after: string, afterOut: string,
                         restOut: string)
    requires IsNeedle(needle) && AtBoundary(rest) && whole == s + rest && Starts(s, needle) && Starts(whole, needle)
    requires after == s[TokenEnd(s, |needle|)..] && Scrubbed(after, needle) == afterOut
    requires Scrubbed(after + rest, needle) == afterOut + restOut
    ensures Scrubbed(whole, needle) == Scrubbed(s, needle) + restOut
  {
    var head := s[..|needle|];
    AfterInFront(whole, s, rest, needle);
    ScrubAtNeedle(whole, needle, head, after + rest);
    ScrubAtNeedle(s, needle, head, after);
    SpliceTwice(head + REDACTED, afterOut, restOut);
  }

  lemma SpliceTwice(a: string, b: string, c: string)
    ensures a + (b + c) == a + b + c
  {
  }

  lemma ScrubSplitsPast(whole: string, s: string, rest: string, needle: string, tail: string, tailOut: string,
                        restOut: string)
    requires needle != [] && s != [] && whole == s + rest && !Starts(s, needle) && !Starts(whole, needle)
    requires tail == s[1..] && Scrubbed(tail, needle) == tailOut
    requires Scrubbed(tail + rest, needle) == tailOut + restOut
    ensures Scrubbed(whole, needle) == Scrubbed(s, needle) + restOut
  {
    assert whole[1..] == tail + rest && whole[0] == s[0];
    ScrubPastNeedle(whole, needle, tail + rest);
    ScrubPastNeedle(s, needle, tail);
    SpliceTwice([s[0]], tailOut, restOut);
  }

  lemma StartsInFront(s: string, rest: string, needle: string)
    requires IsNeedle(needle) && AtBoundary(rest)
    ensures Starts(s + rest, needle) <==> Starts(s, needle)
  {
    if |needle| <= |s| {
      assert (s + rest)[..|needle|] == s[..|needle|];
    } else if Starts(s + rest, needle) {
      StartsBeforeSpace(s + rest, needle, |s|);
    }
  }

  lemma TokenEndInFront(s: string, rest: string, i: nat)
    requires AtBoundary(rest) && i <= |s|
    ensures TokenEnd(s + rest, i) == TokenEnd(s, i)
  {
    var end := TokenEnd(s, i);
    TokenEndIsBoundary(s, i);
    assert (s + rest)[i..end] == s[i..end] && (s + rest)[end..] == s[end..] + rest;
    TokenEndIs(s + rest, i, end);
  }

  /** White space passes through unchanged. */
  lemma SpacePasses(c: char, rest: string, needle: string)
    requires IsNeedle(needle) && IsSpace(c)
    ensures Scrubbed([c] + rest, needle) == [c] + Scrubbed(rest, needle)
  {
    BoundaryDoesNotStart([c] + rest, needle);
    ScrubPastNeedle([c] + rest, needle, rest);
  }

  /** The end found is that of the first needle. */
  lemma {:induction false} FirstEndIsFirst(s: string, needle: string, k: nat)
    requires k <= |s| && Starts(s[k..], needle) && forall j | 0 <= j < k :: !Starts(s[j..], needle)
    ensures FirstEnd(s, needle) == Some(k + |needle|)
  {
    if k == 0 {
      assert s[0..] == s;
    } else {
      assert s[0..] == s && !Starts(s[0..], needle);
      assert s[1..][k - 1..] == s[k..];
      forall j | 0 <= j < k - 1
        ensures !Starts(s[1..][j..], needle)
      {
        assert s[1..][j..] == s[j + 1..];
      }
      FirstEndIsFirst(s[1..], needle, k - 1);
    }
  }
}
