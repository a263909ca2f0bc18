/**
  The three Python string operations the pipeline is built from, on
  strings of Unicode code points (Python's `len` counts code points, as
  `|s|` does here):
  - `s.strip()`, which removes leading and trailing whitespace;
  - `s.split("\n\n")`, which cuts at every non-overlapping occurrence of the
    blank-line delimiter, scanning left to right;
  - `"\n\n".join(parts)`.
 */
module Text {
  import opened Seqs

  /** The blank-line delimiter that separates paragraphs and pages. */
  const Delimiter: string := "\n\n"

  /** The characters for which Python's `str.isspace()` holds. */
  predicate IsSpace(c: char) {
    || c == ' ' || c == '\t' || c == '\n' || c == '\r' || c == '\U{0B}' || c == '\U{0C}'
    || ('\U{1C}' <= c <= '\U{1F}') || c == '\U{85}' || c == '\U{A0}' || c == '\U{1680}'
    || ('\U{2000}' <= c <= '\U{200A}') || c == '\U{2028}' || c == '\U{2029}'
    || c == '\U{202F}' || c == '\U{205F}' || c == '\U{3000}'
  }

  predicate AllSpace(s: string) {
    forall i :: 0 <= i < |s| ==> IsSpace(s[i])
  }

  /** `s.rstrip()`: the longest prefix of `s` that does not end with whitespace. */
  function TrimEnd(s: string): (r: string)
    ensures |r| <= |s| && r == s[..|r|]
    ensures AllSpace(s[|r|..])
    ensures r == [] || !IsSpace(r[|r| - 1])
  {
    if s != [] && IsSpace(s[|s| - 1]) then TrimEnd(s[..|s| - 1]) else s
  }

  /** `s.strip()`: leading whitespace dropped one character at a time, then `rstrip()`. */
  function Strip(s: string): (r: string)
    ensures |r| <= |s|
    ensures r == [] <==> AllSpace(s)
    ensures r != [] ==> !IsSpace(r[0]) && !IsSpace(r[|r| - 1])
    decreases |s|
  {
    if s != [] && IsSpace(s[0]) then Strip(s[1..]) else TrimEnd(s)
  }

  /** `s.split("\n\n")`: the pieces between the delimiters found scanning left to right. */
  function Split(s: string): (parts: seq<string>)
    ensures |parts| >= 1
    decreases |s|
  {
    if |s| >= 2 && s[0] == '\n' && s[1] == '\n' then [""] + Split(s[2..])
    else if s == [] then [""]
    else
      var rest := Split(s[1..]);
      [[s[0]] + rest[0]] + rest[1..]
  }

  /** `"\n\n".join(parts)`. */
  function Join(parts: seq<string>): string
  {
    if parts == [] then ""
    else if |parts| == 1 then parts[0]
    else parts[0] + Delimiter + Join(parts[1..])
  }

  /** The concatenation of a sequence of sequences. */
  function Flatten<T>(xss: seq<seq<T>>): seq<T>
  {
    if xss == [] then [] else Flatten(xss[..|xss| - 1]) + xss[|xss| - 1]
  }

  /** The paragraphs of each string, one after the other. */
  function SplitEach(texts: seq<string>): seq<string>
  {
    if texts == [] then [] else Split(texts[0]) + SplitEach(texts[1..])
  }

  predicate EndsWithNewline(s: string) {
    s != [] && s[|s| - 1] == '\n'
  }

  /** No delimiter occurs anywhere in `s`. */
  predicate NoDelimiter(s: string) {
    forall i :: 0 <= i < |s| - 1 ==> !(s[i] == '\n' && s[i + 1] == '\n')
  }

  // ---------------------------------------------------------------------
  // Lemmas about strip

  lemma {:induction false} TrimEndAppendSpace(s: string, w: string)
    requires AllSpace(w)
    ensures TrimEnd(s + w) == TrimEnd(s)
    decreases |w|
  {
    if w == [] {
      assert s + w == s;
    } else {
      var w' := w[..|w| - 1];
      assert (s + w)[..|s + w| - 1] == s + w';
      assert IsSpace(w[|w| - 1]);
      assert AllSpace(w') by {
        forall i | 0 <= i < |w'| ensures IsSpace(w'[i]) { assert w'[i] == w[i]; }
      }
      TrimEndAppendSpace(s, w');
    }
  }

  /** Whitespace appended to a string does not change what `strip()` returns. */
  lemma {:induction false} StripAppendSpace(s: string, w: string)
    requires AllSpace(w)
    ensures Strip(s + w) == Strip(s)
    decreases |s|
  {
    if s == [] {
      assert s + w == w;
    } else if IsSpace(s[0]) {
      assert (s + w)[0] == s[0];
      assert (s + w)[1..] == s[1..] + w;
      StripAppendSpace(s[1..], w);
    } else {
      assert (s + w)[0] == s[0];
      TrimEndAppendSpace(s, w);
    }
  }

  /** `r` sits in `s` at offset `k` with only whitespace before and after it. */
  predicate Framed(s: string, k: int, r: string) {
    && 0 <= k <= |s| - |r|
    && s[k..k + |r|] == r
    && AllSpace(s[..k])
    && AllSpace(s[k + |r|..])
  }

  lemma FramedShift(s: string, k: int, r: string)
    requires s != [] && IsSpace(s[0]) && Framed(s[1..], k, r)
    ensures Framed(s, k + 1, r)
  {
    assert s[k + 1..k + 1 + |r|] == s[1..][k..k + |r|];
    assert s[..k + 1] == [s[0]] + s[1..][..k];
    assert s[k + 1 + |r|..] == s[1..][k + |r|..];
  }

  /**
    `strip()` removes whitespace only, and only at the ends: the result is
    a slice of `s` with nothing but whitespace before and after it.
   */
  lemma {:induction false} StripIsSlice(s: string)
    ensures exists k :: Framed(s, k, Strip(s))
    decreases |s|
  {
    if s != [] && IsSpace(s[0]) {
      StripIsSlice(s[1..]);
      var k :| Framed(s[1..], k, Strip(s[1..]));
      FramedShift(s, k, Strip(s));
    } else {
      assert s[..0] == [];
      assert Framed(s, 0, Strip(s));
    }
  }

  /** `(s + "\n\n").strip() == s.strip()`. */
  lemma StripDelimiter(s: string)
    ensures Strip(s + Delimiter) == Strip(s)
  {
    StripAppendSpace(s, Delimiter);
  }

  /** A string without whitespace at either end is its own strip. */
  lemma StripBordered(s: string)
    requires s == [] || (!IsSpace(s[0]) && !IsSpace(s[|s| - 1]))
    ensures Strip(s) == s
  {
  }

  // ---------------------------------------------------------------------
  // Lemmas about split and join

  /** Prefixing a character to the first piece prefixes it to the joined string. */
  lemma JoinPrefixFirst(c: char, parts: seq<string>)
    requires parts != []
    ensures Join([[c] + parts[0]] + parts[1..]) == [c] + Join(parts)
  {
    var parts' := [[c] + parts[0]] + parts[1..];
    if |parts| > 1 {
      assert parts'[1..] == parts[1..];
    }
  }

  /** Joining the pieces of a split gives back the original string. */
  lemma {:induction false} JoinSplit(s: string)
    ensures Join(Split(s)) == s
    decreases |s|
  {
    if StartsWithDelimiter(s) {
      JoinSplit(s[2..]);
      var rest := Split(s[2..]);
      JoinEmptyFirst(rest);
      assert s == Delimiter + s[2..];
      calc {
        Join(Split(s));
        Join([""] + rest);
        Delimiter + Join(rest);
        s;
      }
    } else if s != [] {
      JoinSplit(s[1..]);
      var rest := Split(s[1..]);
      SplitCons(s);
      JoinPrefixFirst(s[0], rest);
      assert s == [s[0]] + s[1..];
    }
  }

  /** A leading empty piece contributes only the delimiter that follows it. */
  lemma JoinEmptyFirst(rest: seq<string>)
    requires rest != []
    ensures Join([""] + rest) == Delimiter + Join(rest)
  {
    assert ([""] + rest)[1..] == rest;
  }

  /** A string without the delimiter is a single paragraph. */
  lemma {:induction false} SplitNoDelimiter(s: string)
    requires NoDelimiter(s)
    ensures Split(s) == [s]
    decreases |s|
  {
    if s != [] {
      assert NoDelimiter(s[1..]) by {
        forall i | 0 <= i < |s[1..]| - 1 ensures !(s[1..][i] == '\n' && s[1..][i + 1] == '\n') {
          assert s[1..][i] == s[i + 1] && s[1..][i + 1] == s[i + 2];
        }
      }
      SplitNoDelimiter(s[1..]);
      assert [s[0]] + s[1..] == s;
    }
  }

  predicate StartsWithDelimiter(s: string) {
    |s| >= 2 && s[0] == '\n' && s[1] == '\n'
  }

  /** Where `s` does not start with the delimiter, its first character belongs to its first paragraph. */
  lemma SplitCons(s: string)
    requires s != [] && !StartsWithDelimiter(s)
    ensures Split(s) == [[s[0]] + Split(s[1..])[0]] + Split(s[1..])[1..]
  {
  }

  lemma PrefixFirstAppend(c: char, a: seq<string>, b: seq<string>)
    requires a != []
    ensures [[c] + (a + b)[0]] + (a + b)[1..] == ([[c] + a[0]] + a[1..]) + b
  {
    assert (a + b)[0] == a[0];
    assert (a + b)[1..] == a[1..] + b;
  }



  /**
    A delimiter placed after a string that does not end with a newline is a
    paragraph boundary: the paragraphs of `l + "\n\n" + r` are those of `l`
    followed by those of `r`.
   */
  lemma {:induction false} SplitAtDelimiter(l: string, r: string)
    requires !EndsWithNewline(l)
    ensures Split(l + Delimiter + r) == Split(l) + Split(r)
    decreases |l|
  {
    var s := l + Delimiter + r;
    if l == [] {
      SliceAfter(l, Delimiter, r, 0);
      assert s[..2] == Delimiter && s[2..] == r;
    } else if StartsWithDelimiter(l) {
      SliceAfter(l, Delimiter, r, 2);
      assert !EndsWithNewline(l[2..]);
      SplitAtDelimiter(l[2..], r);
      assert Split(s) == [""] + Split(s[2..]);
      assert Split(l) == [""] + Split(l[2..]);
      Associative([""], Split(l[2..]), Split(r));
    } else {
      SliceAfter(l, Delimiter, r, 1);
      assert !StartsWithDelimiter(s) by {
        if |l| == 1 {
          assert l[0] != '\n';
        } else {
          assert s[1] == l[1];
        }
      }
      assert !EndsWithNewline(l[1..]);
      SplitAtDelimiter(l[1..], r);
      SplitCons(s);
      SplitCons(l);
      PrefixFirstAppend(l[0], Split(l[1..]), Split(r));
    }
  }
}
