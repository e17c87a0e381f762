/** Redacting `header=<value>` inside a log message. */
module LogScrubber {
  import opened Sequences
  import opened Text

  const REDACTED := "[redacted]"

  /** The ASCII white space that ends a value. */
  predicate IsSpace(c: char) { '\t' <= c <= '\r' || '\U{1C}' <= c <= ' ' }

  /** Tab, line feed, the two further vertical spaces, return, the four separators and the blank. */
  lemma SpacesAre(c: char)
    ensures IsSpace(c) <==> c in {'\t', '\n', '\U{0B}', '\U{0C}', '\r', '\U{1C}', '\U{1D}', '\U{1E}', '\U{1F}', ' '}
  {
    assert IsSpace(c) <==> 9 <= c as int <= 13 || 28 <= c as int <= 32;
  }

  predicate NoSpace(s: string) { forall i | 0 <= i < |s| :: !IsSpace(s[i]) }

  /** What the callers pass: a lower-case header name followed by an equals sign. */
  predicate IsNeedle(needle: string) {
    && needle != [] && NoSpace(needle) && needle[|needle| - 1] == '='
  }

  const SENSITIVE_HEADERS: set<string> := {"authorization", "x-api-key", "x-apikey"}

  lemma HeadersMakeNeedles(header: string)
    requires header in SENSITIVE_HEADERS
    ensures IsNeedle(header + "=") && NoCapitals(header + "=")
  {
  }

  /** The same text but for the case of `a`. */
  predicate SameLowered(a: string, b: string) {
    if a == [] || b == [] then a == b
    else LowerChar(a[0]) == b[0] && SameLowered(a[1..], b[1..])
  }

  /** The text starts with the needle, whatever the case. */
  predicate Starts(s: string, needle: string) {
    |needle| <= |s| && SameLowered(s[..|needle|], needle)
  }

  predicate StandsAt(text: string, needle: string, k: nat) {
    k + |needle| <= |text| && text[k..k + |needle|] == needle
  }

  /** Where the text has the needle first, from `i` on. */
  function Find(text: string, needle: string, i: nat): (r: Option<nat>)
    requires i <= |text|
    ensures r.Some? ==> i <= r.value && StandsAt(text, needle, r.value)
    ensures forall k: nat | i <= k && (r.Some? ==> k < r.value) :: !StandsAt(text, needle, k)
    decreases |text| - i
  {
    if StandsAt(text, needle, i) then Some(i)
    else if i == |text| then None
    else Find(text, needle, i + 1)
  }

  /** The first white space from `i` on, or the end. */
  function TokenEnd(s: string, i: nat): (e: nat)
    requires i <= |s|
    ensures i <= e <= |s|
    decreases |s| - i
  {
    if i < |s| && !IsSpace(s[i]) then TokenEnd(s, i + 1) else i
  }

  /** Wherever the needle starts it stays, its value gives way to the mark, and the rest is scrubbed on. */
  function Scrubbed(s: string, needle: string): string
    requires needle != []
    decreases |s|
  {
    if s == [] then []
    else if Starts(s, needle) then
      s[..|needle|] + REDACTED + Scrubbed(s[TokenEnd(s, |needle|)..], needle)
    else [s[0]] + Scrubbed(s[1..], needle)
  }

  method ValueEnd(msg: string, start: nat) returns (end: nat)
    requires start <= |msg|
    ensures end == TokenEnd(msg, start)
  {
    end := start;
    while end < |msg| && !IsSpace(msg[end])
      invariant start <= end <= |msg| && TokenEnd(msg, end) == TokenEnd(msg, start)
    {
      end := end + 1;
    }
  }

  method ScrubInlineKv(msg: string, needle: string) returns (scrubbed: string)
    requires IsNeedle(needle)
    ensures scrubbed == Scrubbed(msg, needle)
  {
    var lowered := Lower(msg);
    var out: string := [];
    var i := 0;
    ghost var left := msg;
    while i < |msg|
      invariant 0 <= i <= |msg| && left == msg[i..]
      invariant out + Scrubbed(left, needle) == Scrubbed(msg, needle)
    {
      var found := Find(lowered, needle, i);
      if found.None? {
        NothingLeft(msg, needle, i, left);
        return out + msg[i..];
      }
      var idx := found.value;
      var end := ValueEnd(msg, idx + |needle|);
      ghost var after := msg[end..];
      OneRound(msg, needle, i, idx, end, left, after);
      out := Spliced(out, msg[i..idx], msg[idx..idx + |needle|] + REDACTED, Scrubbed(after, needle));
      i, left := end, after;
    }
    scrubbed := out;
  }

  lemma OneRound(msg: string, needle: string, i: nat, idx: nat, end: nat, left: string, after: string)
    requires needle != [] && i <= |msg| && Find(Lower(msg), needle, i) == Some(idx)
    requires end == TokenEnd(msg, idx + |needle|) && left == msg[i..] && after == msg[end..]
    ensures Scrubbed(left, needle)
            == msg[i..idx] + ((msg[idx..idx + |needle|] + REDACTED) + Scrubbed(after, needle))
  {
    SkipTo(msg, needle, i, idx, left, msg[idx..]);
    RedactAt(msg, needle, idx, end, msg[idx..], after);
  }

  lemma NothingLeft(msg: string, needle: string, i: nat, left: string)
    requires needle != [] && i <= |msg| && left == msg[i..] && Find(Lower(msg), needle, i).None?
    ensures Scrubbed(left, needle) == left
  {
    SkipTo(msg, needle, i, |msg|, left, []);
  }

  /** Appending in two steps. */
  method Spliced(out: string, kept: string, marked: string, ghost rest: string) returns (more: string)
    ensures more + rest == out + (kept + (marked + rest))
  {
    more := out + kept;
    more := more + marked;
    assert out + kept + marked + rest == out + (kept + (marked + rest));
  }

  lemma {:induction false} SameLoweredIs(a: string, b: string)
    ensures SameLowered(a, b) <==> Lower(a) == b
  {
    if a == [] || b == [] {
    } else {
      SameLoweredIs(a[1..], b[1..]);
      assert Lower(a) == [LowerChar(a[0])] + Lower(a[1..]);
      assert b == [b[0]] + b[1..];
    }
  }

  lemma StartsAt(msg: string, needle: string, k: nat)
    requires k <= |msg|
    ensures Starts(msg[k..], needle) <==> StandsAt(Lower(msg), needle, k)
  {
    if k + |needle| <= |msg| {
      var piece := msg[k..][..|needle|];
      SameLoweredIs(piece, needle);
      assert Lower(piece) == Lower(msg)[k..k + |needle|];
    }
  }

  lemma {:induction false} SkipTo(msg: string, needle: string, i: nat, idx: nat, s: string, rest: string)
    requires needle != [] && i <= idx <= |msg|
    requires forall k: nat | i <= k < idx :: !StandsAt(Lower(msg), needle, k)
    requires s == msg[i..] && rest == msg[idx..]
    ensures Scrubbed(s, needle) == msg[i..idx] + Scrubbed(rest, needle)
    decreases idx - i
  {
    if i == idx {
      assert msg[i..idx] == [];
    } else {
      SkipTo(msg, needle, i + 1, idx, msg[i + 1..], rest);
      SkipOne(msg, needle, i, idx, s, msg[i + 1..], Scrubbed(rest, needle));
    }
  }

  lemma SkipOne(msg: string, needle: string, i: nat, idx: nat, s: string, tail: string, out: string)
    requires needle != [] && i < idx <= |msg| && !StandsAt(Lower(msg), needle, i)
    requires s == msg[i..] && tail == msg[i + 1..]
    requires Scrubbed(tail, needle) == msg[i + 1..idx] + out
    ensures Scrubbed(s, needle) == msg[i..idx] + out
  {
    StartsAt(msg, needle, i);
    assert s[1..] == tail;
    ScrubPastNeedle(s, needle, tail);
    assert msg[i..idx] == [msg[i]] + msg[i + 1..idx];
  }

  lemma {:induction false} TokenEndInTail(msg: string, d: nat, i: nat)
    requires d <= i <= |msg|
    ensures TokenEnd(msg[d..], i - d) == TokenEnd(msg, i) - d
    decreases |msg| - i
  {
    if i == |msg| || IsSpace(msg[i]) {
    } else {
      TokenEndInTail(msg, d, i + 1);
    }
  }

  lemma ScrubAtNeedle(s: string, needle: string, head: string, rest: string)
    requires needle != [] && Starts(s, needle)
    requires head == s[..|needle|] && rest == s[TokenEnd(s, |needle|)..]
    ensures Scrubbed(s, needle) == head + REDACTED + Scrubbed(rest, needle)
  {
  }

  lemma ScrubPastNeedle(s: string, needle: string, rest: string)
    requires needle != [] && s != [] && !Starts(s, needle) && rest == s[1..]
    ensures Scrubbed(s, needle) == [s[0]] + Scrubbed(rest, needle)
  {
  }

  lemma RedactAt(msg: string, needle: string, idx: nat, end: nat, s: string, rest: string)
    requires needle != [] && StandsAt(Lower(msg), needle, idx)
    requires end == TokenEnd(msg, idx + |needle|) && s == msg[idx..] && rest == msg[end..]
    ensures Scrubbed(s, needle) == (msg[idx..idx + |needle|] + REDACTED) + Scrubbed(rest, needle)
  {
    var head := msg[idx..idx + |needle|];
    StartsAt(msg, needle, idx);
    TokenEndInTail(msg, idx, idx + |needle|);
    assert s[end - idx..] == rest;
    assert s[..|needle|] == head;
    ScrubAtNeedle(s, needle, head, rest);
  }
}
