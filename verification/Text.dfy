/** Facts about strings joined with separator characters. */
module Text {

  /** A separator that the left parts avoid can be recovered from the joined text. */
  lemma SplitAtSeparator(a: string, b: string, c: string, d: string, sep: char)
    requires sep !in a && sep !in c
    requires a + [sep] + b == c + [sep] + d
    ensures a == c && b == d
  {
    var left, right := a + [sep] + b, c + [sep] + d;
    assert left[|a|] == sep && right[|c|] == sep;
    assert forall i | 0 <= i < |a| :: left[i] == a[i];
    assert forall i | 0 <= i < |c| :: right[i] == c[i];
    assert a == left[..|a|] && c == right[..|a|];
    assert b == left[|a| + 1..] && d == right[|a| + 1..];
  }

  function Join(parts: seq<string>, sep: char): string {
    if parts == [] then ""
    else if |parts| == 1 then parts[0]
    else parts[0] + [sep] + Join(parts[1..], sep)
  }

  /** The parts between the separators, at least one. */
  function Split(s: string, sep: char): (parts: seq<string>)
    ensures parts != []
  {
    if s == [] then [""]
    else
      var rest := Split(s[1..], sep);
      if s[0] == sep then [""] + rest else [[s[0]] + rest[0]] + rest[1..]
  }

  lemma {:induction false} SplitJoins(s: string, sep: char)
    ensures Join(Split(s, sep), sep) == s
  {
    if s == [] {
    } else {
      SplitJoins(s[1..], sep);
      var rest := Split(s[1..], sep);
      assert s == [s[0]] + s[1..];
      if s[0] == sep {
        assert ([""] + rest)[1..] == rest;
      } else {
        assert ([[s[0]] + rest[0]] + rest[1..])[1..] == rest[1..];
      }
    }
  }

  lemma {:induction false} SplitAtFirst(a: string, b: string, sep: char)
    ensures Split(a + [sep] + b, sep) == Split(a, sep) + Split(b, sep)
  {
    var s := a + [sep] + b;
    if a == [] {
      assert s[1..] == b;
    } else {
      assert s[1..] == a[1..] + [sep] + b;
      SplitAtFirst(a[1..], b, sep);
    }
  }

  /** The pieces a list of texts falls into when each is cut at the separators; an empty list counts as one empty
      text. */
  function Pieces(parts: seq<string>, sep: char): seq<string> {
    if parts == [] then [""]
    else if |parts| == 1 then Split(parts[0], sep)
    else Split(parts[0], sep) + Pieces(parts[1..], sep)
  }

  lemma {:induction false} SplitOfJoin(parts: seq<string>, sep: char)
    ensures Split(Join(parts, sep), sep) == Pieces(parts, sep)
  {
    if |parts| <= 1 {
    } else {
      SplitOfJoin(parts[1..], sep);
      SplitAtFirst(parts[0], Join(parts[1..], sep), sep);
    }
  }

  /** Two lists join to one text exactly when they fall into the same pieces. */
  lemma JoinsAgreeExactly(xs: seq<string>, ys: seq<string>, sep: char)
    ensures Join(xs, sep) == Join(ys, sep) <==> Pieces(xs, sep) == Pieces(ys, sep)
  {
    SplitOfJoin(xs, sep);
    SplitOfJoin(ys, sep);
    SplitJoins(Join(xs, sep), sep);
    SplitJoins(Join(ys, sep), sep);
  }

  lemma {:induction false} SplitPlain(s: string, sep: char)
    requires sep !in s
    ensures Split(s, sep) == [s]
  {
    if s == [] {
    } else {
      SplitPlain(s[1..], sep);
      assert s == [s[0]] + s[1..];
    }
  }

  /** Texts without the separator are their own pieces. */
  lemma {:induction false} PiecesPlain(parts: seq<string>, sep: char)
    requires parts != [] && forall part | part in parts :: sep !in part
    ensures Pieces(parts, sep) == parts
  {
    SplitPlain(parts[0], sep);
    if |parts| == 1 {
    } else {
      PiecesPlain(parts[1..], sep);
      assert parts == [parts[0]] + parts[1..];
    }
  }

  predicate OccursAt(text: string, part: string, i: int) {
    0 <= i <= |text| - |part| && text[i..i + |part|] == part
  }

  predicate HasPart(text: string, part: string) {
    exists i | 0 <= i <= |text| - |part| :: OccursAt(text, part, i)
  }

  predicate EndsWith(s: string, end: string) { |end| <= |s| && s[|s| - |end|..] == end }

  function LowerChar(c: char): char {
    if 'A' <= c <= 'Z' then (c as int + 32) as char else c
  }

  /** ASCII lower-casing. */
  function Lower(s: string): (r: string)
    ensures |r| == |s| && forall i | 0 <= i < |s| :: r[i] == LowerChar(s[i])
  {
    seq(|s|, i requires 0 <= i < |s| => LowerChar(s[i]))
  }

  /** The same letter but for its case, or the same character. */
  predicate SameLetter(a: char, b: char) {
    || a == b
    || ('A' <= a <= 'Z' && b as int == a as int + 32)
    || ('A' <= b <= 'Z' && a as int == b as int + 32)
  }

  /** The same text but for the case of its letters. */
  predicate SameSpelling(a: string, b: string) {
    |a| == |b| && forall i | 0 <= i < |a| :: SameLetter(a[i], b[i])
  }

  lemma LowerCharForgetsCase(a: char, b: char)
    ensures LowerChar(a) == LowerChar(b) <==> SameLetter(a, b)
    ensures !('A' <= LowerChar(a) <= 'Z')
  {
  }

  /** Lower-casing forgets the case of letters and nothing else, and leaves no capital. */
  lemma LowerForgetsCase(a: string, b: string)
    ensures Lower(a) == Lower(b) <==> SameSpelling(a, b)
    ensures forall i | 0 <= i < |a| :: !('A' <= Lower(a)[i] <= 'Z')
  {
    forall i | 0 <= i < |a|
      ensures !('A' <= Lower(a)[i] <= 'Z')
      ensures i < |b| ==> (Lower(a)[i] == Lower(b)[i] <==> SameLetter(a[i], b[i]))
    {
      LowerCharForgetsCase(a[i], if i < |b| then b[i] else a[i]);
    }
  }

  /** A text without capitals is its own lower case. */
  predicate NoCapitals(s: string) { forall i | 0 <= i < |s| :: !('A' <= s[i] <= 'Z') }

  lemma LowerKeepsLower(s: string)
    requires NoCapitals(s)
    ensures Lower(s) == s
  {
    forall i | 0 <= i < |s|
      ensures LowerChar(s[i]) == s[i]
    {
    }
  }

  /** The part stands at this place of the text, in any case. */
  predicate SpelledAt(text: string, part: string, i: int) {
    0 <= i <= |text| - |part| && SameSpelling(text[i..i + |part|], part)
  }

  lemma SpelledInLower(text: string, part: string, i: int)
    requires NoCapitals(part)
    ensures OccursAt(Lower(text), part, i) <==> SpelledAt(text, part, i)
  {
    if 0 <= i <= |text| - |part| {
      var piece := text[i..i + |part|];
      LowerForgetsCase(piece, part);
      LowerKeepsLower(part);
      assert Lower(piece) == Lower(text)[i..i + |part|];
    }
  }

  lemma SpelledAtStart(text: string, part: string)
    requires NoCapitals(part)
    ensures part <= Lower(text) <==> SpelledAt(text, part, 0)
  {
    SpelledInLower(text, part, 0);
  }

  lemma SpelledAtEnd(text: string, part: string)
    requires NoCapitals(part)
    ensures EndsWith(Lower(text), part) <==> SpelledAt(text, part, |text| - |part|)
  {
    SpelledInLower(text, part, |text| - |part|);
  }

  lemma SpelledSomewhere(text: string, part: string)
    requires NoCapitals(part)
    ensures HasPart(Lower(text), part) <==> exists i :: SpelledAt(text, part, i)
  {
    if HasPart(Lower(text), part) {
      var i :| 0 <= i <= |text| - |part| && OccursAt(Lower(text), part, i);
      SpelledInLower(text, part, i);
    }
    if i :| SpelledAt(text, part, i) {
      SpelledInLower(text, part, i);
    }
  }

  /** `hash` never maps two texts to one digest. */
  ghost predicate Injective(hash: string -> string) {
    forall x, y :: hash(x) == hash(y) ==> x == y
  }
}
