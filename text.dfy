/** The two JavaScript string operations answer marking relies on,
    `String.prototype.toLowerCase` and `String.prototype.trim`, restricted to
    ASCII: upper-case letters are 'A'..'Z' and whitespace is space, tab, line
    feed, vertical tab, form feed and carriage return. */
module Text {

  predicate IsSpace(c: char)
  {
    c == ' ' || c == '\t' || c == '\n' || c == '\r' || c == 11 as char || c == 12 as char
  }

  predicate IsUpper(c: char)
  {
    'A' <= c <= 'Z'
  }

  ghost predicate AllSpace(s: string)
  {
    forall i :: 0 <= i < |s| ==> IsSpace(s[i])
  }

  function LowerChar(c: char): (r: char)
    ensures IsUpper(c) ==> r as int == c as int + 32
    ensures !IsUpper(c) ==> r == c
    ensures !IsUpper(r)
  {
    if IsUpper(c) then (c as int + 32) as char else c
  }

  function UpperChar(c: char): (r: char)
    ensures 'a' <= c <= 'z' ==> r as int == c as int - 32 && IsUpper(r)
    ensures !('a' <= c <= 'z') ==> r == c
  {
    if 'a' <= c <= 'z' then (c as int - 32) as char else c
  }

  /** `toLowerCase`: every character lowered, nothing else changed. */
  function Lower(s: string): (r: string)
    ensures |r| == |s|
    ensures forall i :: 0 <= i < |s| ==> r[i] == LowerChar(s[i])
  {
    seq(|s|, i requires 0 <= i < |s| => LowerChar(s[i]))
  }

  /** `toUpperCase`, used only to state that grading ignores case. */
  function Upper(s: string): (r: string)
    ensures |r| == |s|
    ensures forall i :: 0 <= i < |s| ==> r[i] == UpperChar(s[i])
  {
    seq(|s|, i requires 0 <= i < |s| => UpperChar(s[i]))
  }

  /** Drops the leading whitespace: the result is the suffix of `s` that
      starts at its first non-space character. */
  function TrimStart(s: string): (r: string)
    ensures |r| <= |s| && r == s[|s| - |r|..]
    ensures forall i :: 0 <= i < |s| - |r| ==> IsSpace(s[i])
    ensures r == [] || !IsSpace(r[0])
  {
    if |s| > 0 && IsSpace(s[0]) then TrimStart(s[1..]) else s
  }

  /** Drops the trailing whitespace: the result is the prefix of `s` that
      ends at its last non-space character. */
  function TrimEnd(s: string): (r: string)
    ensures |r| <= |s| && r == s[..|r|]
    ensures forall i :: |r| <= i < |s| ==> IsSpace(s[i])
    ensures r == [] || !IsSpace(r[|r| - 1])
  {
    if |s| > 0 && IsSpace(s[|s| - 1]) then TrimEnd(s[..|s| - 1]) else s
  }

  /** `trim`: the middle of `s` left once the whitespace at both ends is
      dropped. */
  function Trim(s: string): (r: string)
    ensures |r| <= |s|
    ensures exists k :: && 0 <= k <= |s| - |r|
                        && r == s[k..k + |r|]
                        && AllSpace(s[..k])
                        && AllSpace(s[k + |r|..])
    ensures r == [] || (!IsSpace(r[0]) && !IsSpace(r[|r| - 1]))
  {
    var t := TrimStart(s);
    var r := TrimEnd(t);
    var k := |s| - |t|;
    assert s[k..k + |r|] == r;
    var tail := s[k + |r|..];
    forall i | 0 <= i < |tail|
      ensures IsSpace(tail[i])
    {
      assert tail[i] == t[|r| + i];
    }
    assert AllSpace(s[..k]) && AllSpace(tail);
    r
  }

  /** `!s || s.trim().length === 0`: the empty string and every all-space
      string are blank, and nothing else is. */
  function IsBlank(s: string): (r: bool)
    ensures r <==> AllSpace(s)
  {
    BlankIffAllSpace(s);
    Trim(s) == []
  }

  /** The key a text answer is compared by: `s.toLowerCase().trim()`. It has
      no upper-case letter and no whitespace at either end, and it is empty
      exactly when `s` is all whitespace. */
  function Normalize(s: string): (r: string)
    ensures forall i :: 0 <= i < |r| ==> !IsUpper(r[i])
    ensures r == [] || (!IsSpace(r[0]) && !IsSpace(r[|r| - 1]))
    ensures r == [] <==> AllSpace(s)
  {
    var l := Lower(s);
    TrimKeepsNoUpper(l);
    BlankIffAllSpace(l);
    LowerKeepsAllSpace(s);
    Trim(l)
  }

  /** Trimming a string without upper-case letters leaves none. */
  lemma TrimKeepsNoUpper(s: string)
    requires forall i :: 0 <= i < |s| ==> !IsUpper(s[i])
    ensures forall i :: 0 <= i < |Trim(s)| ==> !IsUpper(Trim(s)[i])
  {
    var r := Trim(s);
    var k :| 0 <= k <= |s| - |r| && r == s[k..k + |r|] && AllSpace(s[..k]) && AllSpace(s[k + |r|..]);
    assert forall i :: 0 <= i < |r| ==> r[i] == s[k + i];
  }

  /** Lowering neither creates nor removes whitespace. */
  lemma LowerKeepsAllSpace(s: string)
    ensures AllSpace(Lower(s)) <==> AllSpace(s)
  {
    assert forall i :: 0 <= i < |s| ==> (IsSpace(Lower(s)[i]) <==> IsSpace(s[i]));
  }

  /** A string is blank exactly when every character in it is whitespace. */
  lemma BlankIffAllSpace(s: string)
    ensures Trim(s) == [] <==> AllSpace(s)
  {
    var t := TrimStart(s);
    if t != [] {
      assert s[|s| - |t|] == t[0] && !IsSpace(t[0]);
    }
  }

  lemma {:induction false} TrimStartSkipsSpaces(w: string, s: string)
    requires AllSpace(w)
    ensures TrimStart(w + s) == TrimStart(s)
  {
    if w != [] {
      assert (w + s)[0] == w[0] && (w + s)[1..] == w[1..] + s;
      TrimStartSkipsSpaces(w[1..], s);
    } else {
      assert w + s == s;
    }
  }

  lemma {:induction false} TrimEndSkipsSpaces(s: string, w: string)
    requires AllSpace(w)
    ensures TrimEnd(s + w) == TrimEnd(s)
  {
    if w != [] {
      assert (s + w)[|s + w| - 1] == w[|w| - 1] && (s + w)[..|s + w| - 1] == s + w[..|w| - 1];
      TrimEndSkipsSpaces(s, w[..|w| - 1]);
    } else {
      assert s + w == s;
    }
  }

  /** Appending whitespace to a string either leaves nothing after trimming
      its start (the string was blank) or only extends the trimmed suffix. */
  lemma {:induction false} TrimStartAppendSpaces(s: string, w: string)
    requires AllSpace(w)
    ensures TrimStart(s + w) == if TrimStart(s) == [] then [] else TrimStart(s) + w
  {
    if s == [] {
      assert s + w == w;
      TrimStartSkipsSpaces(w, []);
      assert w + [] == w;
    } else if IsSpace(s[0]) {
      assert (s + w)[1..] == s[1..] + w;
      TrimStartAppendSpaces(s[1..], w);
    }
  }

  /** Whitespace around a string does not change what `trim` returns. */
  lemma TrimIgnoresPadding(w1: string, s: string, w2: string)
    requires AllSpace(w1) && AllSpace(w2)
    ensures Trim(w1 + s + w2) == Trim(s)
  {
    assert w1 + s + w2 == w1 + (s + w2);
    TrimStartSkipsSpaces(w1, s + w2);
    TrimStartAppendSpaces(s, w2);
    if TrimStart(s) != [] {
      TrimEndSkipsSpaces(TrimStart(s), w2);
    }
  }

  lemma LowerAppend(a: string, b: string)
    ensures Lower(a + b) == Lower(a) + Lower(b)
  {
  }

  lemma LowerKeepsSpaces(w: string)
    requires AllSpace(w)
    ensures Lower(w) == w && AllSpace(Lower(w))
  {
  }

  /** Neither the case of letters nor whitespace around the string changes
      the normalised key. */
  lemma NormalizeIgnoresPadding(w1: string, s: string, w2: string)
    requires AllSpace(w1) && AllSpace(w2)
    ensures Normalize(w1 + s + w2) == Normalize(s)
  {
    LowerAppend(w1 + s, w2);
    LowerAppend(w1, s);
    LowerKeepsSpaces(w1);
    LowerKeepsSpaces(w2);
    TrimIgnoresPadding(w1, Lower(s), w2);
  }

  lemma NormalizeIgnoresCase(s: string)
    ensures Normalize(Upper(s)) == Normalize(s)
  {
    assert Lower(Upper(s)) == Lower(s) by {
      forall i | 0 <= i < |s|
        ensures Lower(Upper(s))[i] == Lower(s)[i]
      {
        var c := s[i];
        if 'a' <= c <= 'z' {
          assert UpperChar(c) as int == c as int - 32;
        }
      }
    }
  }

  /** A lower-case string without outer whitespace is its own key. */
  lemma NormalizeFixed(s: string)
    requires forall i :: 0 <= i < |s| ==> !IsUpper(s[i])
    requires s == [] || (!IsSpace(s[0]) && !IsSpace(s[|s| - 1]))
    ensures Normalize(s) == s
  {
    assert Lower(s) == s;
  }

  /** Internal whitespace is kept: "new york" and "newyork" have different keys. */
  lemma InternalSpaceMatters()
    ensures Normalize("new york") != Normalize("newyork")
  {
    NormalizeFixed("new york");
    NormalizeFixed("newyork");
  }
}
