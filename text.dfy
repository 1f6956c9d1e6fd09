/** String helpers with Python's meaning: `str.strip()` with no argument,
    `str.split(sep)` with a one-character separator, and the join that undoes it.
    Strings are sequences of Unicode scalar values (`char`). */
module Text {

  /** Python's `str.isspace` for a single character: the characters `strip()`
      removes when called without an argument. */
  predicate IsSpace(c: char) {
    ('\t' <= c <= '\r') || ('\U{1C}' <= c <= '\U{1F}') || c == ' '
    || c == '\U{85}' || c == '\U{A0}' || c == '\U{1680}'
    || ('\U{2000}' <= c <= '\U{200A}') || c == '\U{2028}' || c == '\U{2029}'
    || c == '\U{202F}' || c == '\U{205F}' || c == '\U{3000}'
  }

  predicate AllSpace(s: string) {
    forall i :: 0 <= i < |s| ==> IsSpace(s[i])
  }

  /** A string that `strip()` leaves alone: empty, or with a non-space at both ends. */
  predicate IsStripped(s: string) {
    s == [] || (!IsSpace(s[0]) && !IsSpace(s[|s| - 1]))
  }

  /** `s.lstrip()`: `s` without its leading spaces. */
  function LStrip(s: string): (r: string)
    ensures |r| <= |s|
    ensures r == [] || !IsSpace(r[0])
  {
    if s != [] && IsSpace(s[0]) then LStrip(s[1..]) else s
  }

  /** `s.rstrip()`: `s` without its trailing spaces; it keeps the first character
      whenever anything is left. */
  function RStrip(s: string): (r: string)
    ensures |r| <= |s|
    ensures r == [] || !IsSpace(r[|r| - 1])
    ensures r != [] ==> r[0] == s[0]
  {
    if s != [] && IsSpace(s[|s| - 1]) then RStrip(s[..|s| - 1]) else s
  }

  /** `s.strip()`: what is left of `s` once all its leading and all its trailing
      spaces are cut off. */
  function Strip(s: string): (r: string)
    ensures IsStripped(r)
  {
    RStrip(LStrip(s))
  }

  /** `lstrip()` cuts exactly an all-space prefix in front of a non-space. */
  lemma {:induction false} LStripPastSpaces(pre: string, t: string)
    requires AllSpace(pre) && (t == [] || !IsSpace(t[0]))
    ensures LStrip(pre + t) == t
  {
    if pre == [] {
      assert pre + t == t;
    } else {
      assert (pre + t)[0] == pre[0] && (pre + t)[1..] == pre[1..] + t;
      assert AllSpace(pre[1..]) by {
        forall i | 0 <= i < |pre[1..]| ensures IsSpace(pre[1..][i]) {
          assert pre[1..][i] == pre[i + 1];
        }
      }
      LStripPastSpaces(pre[1..], t);
    }
  }

  /** `rstrip()` cuts exactly an all-space suffix after a non-space. */
  lemma {:induction false} RStripPastSpaces(t: string, post: string)
    requires AllSpace(post) && (t == [] || !IsSpace(t[|t| - 1]))
    ensures RStrip(t + post) == t
  {
    if post == [] {
      assert t + post == t;
    } else {
      var n := |post| - 1;
      assert (t + post)[|t| + n] == post[n] && (t + post)[..|t| + n] == t + post[..n];
      assert AllSpace(post[..n]) by {
        forall i | 0 <= i < n ensures IsSpace(post[..n][i]) {
          assert post[..n][i] == post[i];
        }
      }
      RStripPastSpaces(t, post[..n]);
    }
  }

  /** Strip is determined by where it cuts: whatever all-space frame surrounds
      a stripped middle, the middle is exactly what `strip()` returns. */
  lemma StripUnique(pre: string, m: string, post: string)
    requires AllSpace(pre) && AllSpace(post) && IsStripped(m)
    ensures Strip(pre + m + post) == m
  {
    if m == [] {
      assert pre + m + post == pre + post;
      assert AllSpace(pre + post) by {
        forall i | 0 <= i < |pre + post| ensures IsSpace((pre + post)[i]) {
          if i < |pre| { assert (pre + post)[i] == pre[i]; }
          else { assert (pre + post)[i] == post[i - |pre|]; }
        }
      }
      LStripPastSpaces(pre + post, []);
      assert pre + post + [] == pre + post;
    } else {
      AppendAssociates(pre, m, post);
      assert (m + post)[0] == m[0];
      LStripPastSpaces(pre, m + post);
      RStripPastSpaces(m, post);
    }
  }

  /** Stripping a stripped string changes nothing; in particular `strip` is idempotent. */
  lemma StripFixesStripped(s: string)
    requires IsStripped(s)
    ensures Strip(s) == s
  {
    StripUnique([], s, []);
    assert [] + s + [] == s;
  }

  /** Only spaces are lost to `lstrip()`. */
  lemma {:induction false} LStripLosesSpaces(s: string)
    ensures AllSpace(LStrip(s)) ==> AllSpace(s)
  {
    if s != [] && IsSpace(s[0]) {
      LStripLosesSpaces(s[1..]);
      if AllSpace(LStrip(s)) {
        forall i | 0 <= i < |s| ensures IsSpace(s[i]) {
          if i > 0 { assert s[i] == s[1..][i - 1]; }
        }
      }
    }
  }

  /** Only spaces are lost to `rstrip()`. */
  lemma {:induction false} RStripLosesSpaces(s: string)
    ensures AllSpace(RStrip(s)) ==> AllSpace(s)
  {
    if s != [] && IsSpace(s[|s| - 1]) {
      var n := |s| - 1;
      RStripLosesSpaces(s[..n]);
      if AllSpace(RStrip(s)) {
        forall i | 0 <= i < |s| ensures IsSpace(s[i]) {
          if i < n { assert s[i] == s[..n][i]; }
        }
      }
    }
  }

  /** `strip()` yields the empty string exactly for all-space input: this is
      the truth test `if ip.strip()` applied to a CSV field. */
  lemma StripEmptyIffAllSpace(s: string)
    ensures Strip(s) == [] <==> AllSpace(s)
  {
    if AllSpace(s) {
      StripUnique(s, [], []);
      assert s + [] + [] == s;
    }
    if Strip(s) == [] {
      RStripLosesSpaces(LStrip(s));
      LStripLosesSpaces(s);
    }
  }

  /** `lstrip()` keeps a suffix of `s` and cuts only spaces. */
  lemma {:induction false} LStripCutsSpaces(s: string)
    ensures var n := |s| - |LStrip(s)|; LStrip(s) == s[n..] && AllSpace(s[..n])
  {
    if s != [] && IsSpace(s[0]) {
      LStripCutsSpaces(s[1..]);
      var n := |s| - |LStrip(s)|;
      assert s[1..][n - 1..] == s[n..];
      forall i | 0 <= i < n ensures IsSpace(s[..n][i]) {
        if i > 0 { assert s[..n][i] == s[1..][..n - 1][i - 1]; }
      }
    }
  }

  /** `rstrip()` keeps a prefix of `s` and cuts only spaces. */
  lemma {:induction false} RStripCutsSpaces(s: string)
    ensures var n := |RStrip(s)|; RStrip(s) == s[..n] && AllSpace(s[n..])
  {
    if s != [] && IsSpace(s[|s| - 1]) {
      var m := |s| - 1;
      RStripCutsSpaces(s[..m]);
      var n := |RStrip(s)|;
      assert s[..m][..n] == s[..n];
      forall i | 0 <= i < |s| - n ensures IsSpace(s[n..][i]) {
        if n + i < m { assert s[n..][i] == s[..m][n..][i]; }
      }
    }
  }

  /** `strip()` returns the part of `s` between an all-space prefix and an
      all-space suffix; with `StripUnique`, this determines it completely. */
  lemma StripCutsSpaces(s: string)
    ensures exists i, j :: 0 <= i <= j <= |s| && Strip(s) == s[i..j] && AllSpace(s[..i]) && AllSpace(s[j..])
  {
    LStripCutsSpaces(s);
    var t := LStrip(s);
    RStripCutsSpaces(t);
    var i := |s| - |t|;
    var j := i + |Strip(s)|;
    assert s[i..j] == t[..|Strip(s)|];
    assert AllSpace(s[j..]) by {
      assert s[j..] == t[|Strip(s)|..];
    }
  }

  /** Concatenation regroups freely; stated once so that proofs about appended
      logs and lists can name the step. */
  lemma AppendAssociates<T>(a: seq<T>, b: seq<T>, c: seq<T>)
    ensures a + (b + c) == a + b + c
  {
  }

  /** Number of occurrences of `c` in `s`. */
  function Count(s: string, c: char): nat {
    if s == [] then 0 else (if s[0] == c then 1 else 0) + Count(s[1..], c)
  }

  /** Python's `s.split(sep)` for a one-character separator: the pieces between
      separators, empty pieces included; there is one more piece than separators. */
  function Split(s: string, sep: char): (parts: seq<string>)
    ensures |parts| == Count(s, sep) + 1
    ensures forall p | p in parts :: sep !in p
  {
    if s == [] then [""]
    else
      var rest := Split(s[1..], sep);
      if s[0] == sep then [""] + rest
      else [[s[0]] + rest[0]] + rest[1..]
  }

  /** `sep.join(parts)` */
  function Join(parts: seq<string>, sep: char): string {
    if parts == [] then ""
    else if |parts| == 1 then parts[0]
    else parts[0] + [sep] + Join(parts[1..], sep)
  }

  /** Splitting loses nothing: joining the pieces gives back the string. */
  lemma {:induction false} JoinSplit(s: string, sep: char)
    ensures Join(Split(s, sep), sep) == s
  {
    if s != [] {
      var rest := Split(s[1..], sep);
      JoinSplit(s[1..], sep);
      if s[0] == sep {
        assert ([""] + rest)[1..] == rest;
      } else if |rest| == 1 {
        assert Join(rest, sep) == rest[0];
      } else {
        var parts := Split(s, sep);
        assert parts[1..] == rest[1..];
        assert Join(rest, sep) == rest[0] + [sep] + Join(rest[1..], sep);
      }
    }
  }

  /** A piece without separators splits to itself. */
  lemma {:induction false} SplitPiece(p: string, sep: char)
    requires sep !in p
    ensures Split(p, sep) == [p]
  {
    if p != [] {
      SplitPiece(p[1..], sep);
      assert [p[0]] + p[1..] == p;
    }
  }

  /** A piece without separators, followed by a separator, splits off as one part. */
  lemma {:induction false} SplitAfterPiece(p: string, sep: char, t: string)
    requires sep !in p
    ensures Split(p + [sep] + t, sep) == [p] + Split(t, sep)
  {
    if p == [] {
      assert p + [sep] + t == [sep] + t;
      assert ([sep] + t)[1..] == t;
    } else {
      var s := p + [sep] + t;
      assert s[1..] == p[1..] + [sep] + t;
      SplitAfterPiece(p[1..], sep, t);
      assert [p[0]] + p[1..] == p;
    }
  }

  /** Joining pieces that hold no separator and splitting again gives the pieces back. */
  lemma {:induction false} SplitJoin(parts: seq<string>, sep: char)
    requires parts != []
    requires forall p | p in parts :: sep !in p
    ensures Split(Join(parts, sep), sep) == parts
  {
    if |parts| == 1 {
      SplitPiece(parts[0], sep);
    } else {
      SplitJoin(parts[1..], sep);
      SplitAfterPiece(parts[0], sep, Join(parts[1..], sep));
      assert [parts[0]] + parts[1..] == parts;
    }
  }
}
