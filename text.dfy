/**
 * The string operations script.js applies to user input: `String.prototype.split`
 * on a one-character separator, and the two-character zero padding that addDate
 * and addTime apply to each component they store.
 */
module Text {
  import opened JsNumber

  /**
   * `s.split(sep)`: the pieces between separators, in order. There is always at
   * least one piece (the empty string splits into `[""]`), and no piece holds
   * the separator.
   */
  function Split(s: string, sep: char): (parts: seq<string>)
    ensures |parts| >= 1
    ensures forall i :: 0 <= i < |parts| ==> sep !in parts[i]
    decreases |s|
  {
    if s == [] then [[]]
    else
      var rest := Split(s[1..], sep);
      if s[0] == sep then [[]] + rest
      else
        assert sep !in [s[0]] + rest[0];
        [[s[0]] + rest[0]] + rest[1..]
  }

  /** The pieces glued back together with the separator between them. */
  function Join(parts: seq<string>, sep: char): string
    requires |parts| >= 1
    decreases |parts|
  {
    if |parts| == 1 then parts[0] else parts[0] + [sep] + Join(parts[1..], sep)
  }

  /** Splitting loses nothing: joining the pieces gives the input back. */
  lemma {:induction false} SplitThenJoin(s: string, sep: char)
    ensures Join(Split(s, sep), sep) == s
    decreases |s|
  {
    if s != [] {
      var rest := Split(s[1..], sep);
      SplitThenJoin(s[1..], sep);
      if s[0] == sep {
        assert Split(s, sep)[1..] == rest;
      } else {
        var parts := Split(s, sep);
        assert parts[0] == [s[0]] + rest[0];
        if |rest| == 1 {
          assert Join(parts, sep) == [s[0]] + rest[0];
        } else {
          assert parts[1..] == rest[1..];
          assert Join(parts, sep) == [s[0]] + (rest[0] + [sep] + Join(rest[1..], sep));
        }
      }
    }
  }

  /** A string without the separator is a single piece. */
  lemma {:induction false} SplitOfPiece(a: string, sep: char)
    requires sep !in a
    ensures Split(a, sep) == [a]
    decreases |a|
  {
    if a != [] {
      assert a[0] != sep && sep !in a[1..];
      SplitOfPiece(a[1..], sep);
      assert [a[0]] + a[1..] == a;
    }
  }

  /** A piece followed by a separator splits off as the first piece. */
  lemma {:induction false} SplitAfterPiece(a: string, t: string, sep: char)
    requires sep !in a
    ensures Split(a + [sep] + t, sep) == [a] + Split(t, sep)
    decreases |a|
  {
    var s := a + [sep] + t;
    if a == [] {
      assert s[1..] == t;
    } else {
      assert s[1..] == a[1..] + [sep] + t;
      SplitAfterPiece(a[1..], t, sep);
      assert [a[0]] + a[1..] == a;
    }
  }

  /** Joining pieces that hold no separator and splitting again gives the pieces back. */
  lemma {:induction false} JoinThenSplit(parts: seq<string>, sep: char)
    requires |parts| >= 1
    requires forall i :: 0 <= i < |parts| ==> sep !in parts[i]
    ensures Split(Join(parts, sep), sep) == parts
    decreases |parts|
  {
    if |parts| == 1 {
      SplitOfPiece(parts[0], sep);
    } else {
      assert sep !in parts[0];
      JoinThenSplit(parts[1..], sep);
      SplitAfterPiece(parts[0], Join(parts[1..], sep), sep);
      assert [parts[0]] + parts[1..] == parts;
    }
  }

  /** The number of UTF-16 code units of a character: 2 for one outside the Basic
      Multilingual Plane, 1 otherwise. */
  function CodeUnits(c: char): nat {
    if c as int >= 0x1_0000 then 2 else 1
  }

  /** JavaScript's `.length` of a string, which counts UTF-16 code units. */
  function Utf16Length(s: string): (n: nat)
    ensures |s| <= n <= 2 * |s|
    decreases |s|
  {
    if s == [] then 0 else CodeUnits(s[0]) + Utf16Length(s[1..])
  }

  /** A string of characters inside the Basic Multilingual Plane has one code unit
      per character. */
  lemma {:induction false} Utf16LengthOfBmp(s: string)
    requires forall i :: 0 <= i < |s| ==> s[i] as int < 0x1_0000
    ensures Utf16Length(s) == |s|
    decreases |s|
  {
    if s != [] {
      assert forall i :: 0 <= i < |s| - 1 ==> s[1..][i] == s[i + 1];
      Utf16LengthOfBmp(s[1..]);
    }
  }

  /**
   * The padding of script.js:24-25 and 30-31: a component whose `.length` is
   * exactly 2 is kept, any other gets one "0" in front. The component is always
   * the tail of the result, and only zeros come before it.
   */
  function Pad2(c: string): (r: string)
    ensures Utf16Length(c) == 2 ==> r == c
    ensures Utf16Length(c) != 2 ==> |r| == |c| + 1
    ensures 1 <= Utf16Length(c) <= 2 ==> Utf16Length(r) == 2
    ensures |c| <= |r| <= |c| + 1 && r != []
    ensures r[|r| - |c|..] == c
    ensures forall i :: 0 <= i < |r| - |c| ==> r[i] == '0'
  {
    if Utf16Length(c) == 2 then c
    else
      assert ("0" + c)[1..] == c;
      "0" + c
  }

  /** A character outside the Basic Multilingual Plane already has length 2 and is
      kept; one such character after a letter has length 3 and is padded. */
  lemma PadCountsCodeUnits()
    ensures Pad2("\U{1F600}") == "\U{1F600}"
    ensures Pad2("a\U{1F600}") == "0a\U{1F600}"
  {
    assert Utf16Length("\U{1F600}") == 2 by {
      assert "\U{1F600}"[1..] == [];
    }
    assert Utf16Length("a\U{1F600}") == 3 by {
      assert "a\U{1F600}"[1..] == "\U{1F600}";
      assert "\U{1F600}"[1..] == [];
    }
  }

  /** Padding a digit run (the empty one included) keeps its numeric value. */
  lemma PadKeepsValue(c: string)
    requires AllDigits(c)
    ensures ToNumber(Pad2(c)) == ToNumber(c)
  {
    Utf16LengthOfBmp(c);
    if |c| != 2 {
      LeadingZero(c);
      var z := "0" + c;
      assert z != [] && z[0] == '0';
      assert c == [] ==> z == "0" && DigitsValue(z) == DigitsValue(z[..0]) * 10;
    }
  }
}
