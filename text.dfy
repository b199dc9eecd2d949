/** The string operations of the Kotlin standard library the adapter relies on:
    case-insensitive `contains`, `split` on one delimiter and `joinToString`.
    Case is folded for ASCII letters only. */
module Text {

  function LowerChar(c: char): char {
    if 'A' <= c <= 'Z' then (c as int + 32) as char else c
  }

  function Lower(s: string): string {
    seq(|s|, i requires 0 <= i < |s| => LowerChar(s[i]))
  }

  /** `needle` appears in `text` at position `i`, ignoring case. */
  ghost predicate OccursAt(text: string, needle: string, i: int) {
    0 <= i && i + |needle| <= |text| && Lower(text[i..i + |needle|]) == Lower(needle)
  }

  /** `needle` appears somewhere in `text`, ignoring case. */
  ghost predicate Mentions(text: string, needle: string) {
    exists i :: OccursAt(text, needle, i)
  }

  /** `text.contains(needle, ignoreCase = true)`, searching left to right. */
  function ContainsIgnoreCase(text: string, needle: string): (b: bool)
    ensures needle == [] ==> b
    ensures |text| < |needle| ==> !b
    decreases |text|
  {
    if |text| < |needle| then false
    else if Lower(text[..|needle|]) == Lower(needle) then true
    else ContainsIgnoreCase(text[1..], needle)
  }

  /** An occurrence past the first position is an occurrence in the rest. */
  lemma OccursAtShift(text: string, needle: string, i: int)
    requires text != [] && i >= 1
    ensures OccursAt(text, needle, i) <==> OccursAt(text[1..], needle, i - 1)
  {
    if i + |needle| <= |text| {
      assert text[1..][i - 1..i - 1 + |needle|] == text[i..i + |needle|];
    }
  }

  /** The search finds `needle` exactly when it occurs somewhere in `text`. */
  lemma {:induction false} ContainsIgnoreCaseCorrect(text: string, needle: string)
    ensures ContainsIgnoreCase(text, needle) <==> Mentions(text, needle)
    decreases |text|
  {
    var n := |needle|;
    if |text| < n {
    } else if Lower(text[..n]) == Lower(needle) {
      assert text[0..n] == text[..n];
      assert OccursAt(text, needle, 0);
    } else {
      assert text[0..n] == text[..n];
      assert !OccursAt(text, needle, 0);
      ContainsIgnoreCaseCorrect(text[1..], needle);
      if i :| OccursAt(text, needle, i) {
        OccursAtShift(text, needle, i);
      }
      if j :| OccursAt(text[1..], needle, j) {
        OccursAtShift(text, needle, j + 1);
      }
    }
  }

  /** `s.split(sep)`: the pieces between the occurrences of `sep`, keeping
      empty pieces, so there is always at least one. */
  function Split(s: string, sep: char): (parts: seq<string>)
    ensures |parts| >= 1
    decreases |s|
  {
    if s == [] then [""]
    else
      var rest := Split(s[1..], sep);
      if s[0] == sep then [""] + rest
      else [[s[0]] + rest[0]] + rest[1..]
  }

  /** `parts.joinToString(sep)`. */
  function Join(parts: seq<string>, sep: string): (r: string)
    ensures parts == [] ==> r == ""
    ensures |parts| == 1 ==> r == parts[0]
    ensures |parts| >= 2 ==> parts[0] + sep <= r
    decreases |parts|
  {
    if parts == [] then ""
    else if |parts| == 1 then parts[0]
    else parts[0] + sep + Join(parts[1..], sep)
  }

  /** Appending a piece adds the separator and that piece at the end, as
      the library's joining loop does. */
  lemma {:induction false} JoinAppend(parts: seq<string>, x: string, sep: string)
    requires |parts| >= 1
    ensures Join(parts + [x], sep) == Join(parts, sep) + sep + x
    decreases |parts|
  {
    if |parts| == 1 {
      assert parts + [x] == [parts[0], x];
      assert [parts[0], x][1..] == [x];
    } else {
      assert (parts + [x])[1..] == parts[1..] + [x];
      JoinAppend(parts[1..], x, sep);
    }
  }

  /** No piece of a split contains the delimiter. */
  lemma {:induction false} SplitPiecesLackSeparator(s: string, sep: char)
    ensures forall k :: 0 <= k < |Split(s, sep)| ==> sep !in Split(s, sep)[k]
    decreases |s|
  {
    if s != [] {
      SplitPiecesLackSeparator(s[1..], sep);
    }
  }

  /** There are two or more pieces exactly when the delimiter occurs. */
  lemma {:induction false} SplitHasSecondPiece(s: string, sep: char)
    ensures |Split(s, sep)| >= 2 <==> sep in s
    decreases |s|
  {
    if s != [] {
      SplitHasSecondPiece(s[1..], sep);
      assert s == [s[0]] + s[1..];
    }
  }

  /** Prepending text free of the delimiter extends the first piece only. */
  lemma {:induction false} SplitPrepend(a: string, x: string, sep: char)
    requires sep !in a
    ensures Split(a + x, sep) == [a + Split(x, sep)[0]] + Split(x, sep)[1..]
    decreases |a|
  {
    if a != [] {
      assert (a + x)[1..] == a[1..] + x;
      SplitPrepend(a[1..], x, sep);
      var parts := Split(x, sep);
      var rest := Split((a + x)[1..], sep);
      assert (a + x)[0] == a[0] && a[0] != sep;
      assert rest[0] == a[1..] + parts[0] && rest[1..] == parts[1..];
      assert [(a + x)[0]] + rest[0] == a + parts[0] by {
        assert a == [a[0]] + a[1..];
      }
    } else {
      var parts := Split(x, sep);
      assert a + x == x && a + parts[0] == parts[0];
      assert parts == [parts[0]] + parts[1..];
    }
  }

  /** Joining the pieces of a split with the delimiter gives back the text. */
  lemma {:induction false} JoinSplit(s: string, sep: char)
    ensures Join(Split(s, sep), [sep]) == s
    decreases |s|
  {
    if s != [] {
      var rest := Split(s[1..], sep);
      JoinSplit(s[1..], sep);
      if s[0] == sep {
        assert Join([""] + rest, [sep]) == "" + [sep] + Join(rest, [sep]);
      } else if |rest| == 1 {
        assert Join([[s[0]] + rest[0]], [sep]) == [s[0]] + rest[0];
      } else {
        var parts := [[s[0]] + rest[0]] + rest[1..];
        assert parts[1..] == rest[1..];
        assert Join(rest, [sep]) == rest[0] + [sep] + Join(rest[1..], [sep]);
      }
    }
  }

  /** Splitting a join of delimiter-free pieces gives back the pieces. */
  lemma {:induction false} SplitJoin(parts: seq<string>, sep: char)
    requires |parts| >= 1
    requires forall k :: 0 <= k < |parts| ==> sep !in parts[k]
    ensures Split(Join(parts, [sep]), sep) == parts
    decreases |parts|
  {
    SplitPrepend(parts[0], [], sep);
    assert parts[0] + [] == parts[0];
    if |parts| > 1 {
      var j := Join(parts[1..], [sep]);
      SplitJoin(parts[1..], sep);
      assert parts[0] + [sep] + j == parts[0] + ([sep] + j);
      SplitPrepend(parts[0], [sep] + j, sep);
      assert ([sep] + j)[1..] == j;
      assert Split([sep] + j, sep) == [""] + parts[1..];
      assert parts == [parts[0]] + parts[1..];
    }
  }
}
