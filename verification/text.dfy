/**
 * String helpers shared by the provider adapters and the Markdown parser:
 * Python's `str.strip`, `str.split('\n')`, `'\n'.join` and `str.replace`.
 */
module Text {

  /** Python's `str.isspace()` on one character; the regular-expression class `\s`
      of a `str` pattern matches the same characters. */
  predicate IsSpace(c: char) {
    || ('\t' <= c <= '\r')
    || ('\U{1C}' <= c <= ' ')
    || c == '\U{85}' || c == '\U{A0}' || c == '\U{1680}'
    || ('\U{2000}' <= c <= '\U{200A}')
    || c == '\U{2028}' || c == '\U{2029}' || c == '\U{202F}' || c == '\U{205F}' || c == '\U{3000}'
  }

  /** `s.lstrip()`: the leading whitespace dropped. */
  function TrimStart(s: string): string
  {
    if s != [] && IsSpace(s[0]) then TrimStart(s[1..]) else s
  }

  /** `s.rstrip()`: the trailing whitespace dropped. */
  function TrimEnd(s: string): string
  {
    if s != [] && IsSpace(s[|s| - 1]) then TrimEnd(s[..|s| - 1]) else s
  }

  /** `s.strip()`: whitespace dropped at both ends. */
  function Strip(s: string): string
  {
    TrimEnd(TrimStart(s))
  }

  /** `lstrip` keeps a suffix, drops only whitespace, and stops at the first other character. */
  lemma {:induction false} TrimStartSpec(s: string)
    ensures var r := TrimStart(s);
      && |r| <= |s| && r == s[|s| - |r|..]
      && (forall k :: 0 <= k < |s| - |r| ==> IsSpace(s[k]))
      && (r == [] || !IsSpace(r[0]))
  {
    if s != [] && IsSpace(s[0]) {
      var u := s[1..];
      TrimStartSpec(u);
      DropOne(s, |u| - |TrimStart(u)|);
      forall k | 0 < k < |s| - |TrimStart(u)|
        ensures IsSpace(s[k])
      {
        assert s[k] == u[k - 1];
      }
    } else {
      assert s[0..] == s;
    }
  }

  /** Dropping one element, then `n` more. */
  lemma DropOne<T>(s: seq<T>, n: nat)
    requires s != [] && n <= |s| - 1
    ensures s[1..][n..] == s[n + 1..]
  {
  }

  /** `rstrip` keeps a prefix, drops only whitespace, and stops at the last other character. */
  lemma {:induction false} TrimEndSpec(s: string)
    ensures var r := TrimEnd(s);
      && |r| <= |s| && r == s[..|r|]
      && (forall k :: |r| <= k < |s| ==> IsSpace(s[k]))
      && (r == [] || !IsSpace(r[|r| - 1]))
  {
    if s != [] && IsSpace(s[|s| - 1]) {
      TrimEndSpec(s[..|s| - 1]);
    } else {
      assert s[..|s|] == s;
    }
  }

  /** `strip` gives the slice of `s` left once the leading and the trailing whitespace
      are dropped: everything dropped is whitespace, the slice neither starts nor ends
      with whitespace, and it is empty exactly when the whole string is whitespace. */
  lemma StripSpec(s: string)
    ensures var r := Strip(s); var a := |s| - |TrimStart(s)|;
      && 0 <= a && a + |r| <= |s| && r == s[a..a + |r|]
      && (forall k :: 0 <= k < a ==> IsSpace(s[k]))
      && (forall k :: a + |r| <= k < |s| ==> IsSpace(s[k]))
      && (r == [] || (!IsSpace(r[0]) && !IsSpace(r[|r| - 1])))
      && (r == [] <==> forall k :: 0 <= k < |s| ==> IsSpace(s[k]))
  {
    var t := TrimStart(s);
    TrimStartSpec(s);
    TrimEndSpec(t);
    var r := TrimEnd(t);
    var a := |s| - |t|;
    SliceOfSlice(s, a, r);
    if r != [] {
      assert r[0] == t[0];
    }
  }

  /** A prefix of a suffix is a slice. */
  lemma SliceOfSlice(s: string, a: nat, r: string)
    requires a <= |s| && |r| <= |s| - a && r == s[a..][..|r|]
    ensures r == s[a..a + |r|]
    ensures forall k :: a <= k < |s| ==> s[k] == s[a..][k - a]
  {
  }

  /** Taking a sequence apart at its first element. */
  lemma Uncons<T>(a: seq<T>, t: seq<T>)
    requires a != []
    ensures (a + t)[0] == a[0] && (a + t)[1..] == a[1..] + t
    ensures [a[0]] + (a[1..] + t) == a + t
  {
  }

  /** `sep.join(xs)` for a one-character separator. */
  function Join(xs: seq<string>, sep: char): string
  {
    if |xs| == 0 then ""
    else if |xs| == 1 then xs[0]
    else xs[0] + [sep] + Join(xs[1..], sep)
  }

  /** `s.split(sep)` for a one-character separator: never empty, and no piece holds `sep`. */
  function Split(s: string, sep: char): (r: seq<string>)
    ensures |r| >= 1
    ensures forall k :: 0 <= k < |r| ==> sep !in r[k]
  {
    if s == [] then [""]
    else
      var rest := Split(s[1..], sep);
      if s[0] == sep then [""] + rest
      else [[s[0]] + rest[0]] + rest[1..]
  }

  /** Joining the pieces of a split gives back the original string. */
  lemma {:induction false} JoinSplit(s: string, sep: char)
    ensures Join(Split(s, sep), sep) == s
  {
    if s != [] {
      var rest := Split(s[1..], sep);
      JoinSplit(s[1..], sep);
      assert s == [s[0]] + s[1..];
      if s[0] == sep {
        assert Split(s, sep) == [""] + rest;
        assert ([""] + rest)[1..] == rest;
        assert Join([""] + rest, sep) == "" + [sep] + Join(rest, sep);
      } else {
        var r := [[s[0]] + rest[0]] + rest[1..];
        assert Split(s, sep) == r;
        assert r[1..] == rest[1..];
        if |rest| > 1 {
          assert Join(rest, sep) == rest[0] + [sep] + Join(rest[1..], sep);
          assert Join(r, sep) == r[0] + [sep] + Join(rest[1..], sep);
        }
        assert s == [s[0]] + s[1..];
      }
    }
  }

  /** A string with no separator prefixed to the input lengthens the first piece only. */
  lemma {:induction false} SplitPrefix(x: string, t: string, sep: char)
    requires sep !in x
    ensures Split(x + t, sep) == [x + Split(t, sep)[0]] + Split(t, sep)[1..]
  {
    if x != [] {
      SplitPrefix(x[1..], t, sep);
      assert (x + t)[1..] == x[1..] + t;
      var rest := Split(x[1..] + t, sep);
      assert rest[0] == x[1..] + Split(t, sep)[0];
      assert rest[1..] == Split(t, sep)[1..];
      assert (x + t)[0] == x[0] && x[0] != sep;
      assert Split(x + t, sep) == [[x[0]] + rest[0]] + rest[1..];
      assert [x[0]] + (x[1..] + Split(t, sep)[0]) == x + Split(t, sep)[0];
    } else {
      assert x + t == t;
      var st := Split(t, sep);
      assert st == [st[0]] + st[1..];
      assert x + st[0] == st[0];
    }
  }

  /** Splitting a join gives back the pieces, when none of them holds the separator. */
  lemma {:induction false} SplitJoin(xs: seq<string>, sep: char)
    requires |xs| >= 1
    requires forall k :: 0 <= k < |xs| ==> sep !in xs[k]
    ensures Split(Join(xs, sep), sep) == xs
  {
    if |xs| == 1 {
      SplitPrefix(xs[0], "", sep);
      assert xs[0] + "" == xs[0];
      assert Split("", sep) == [""];
      assert Join(xs, sep) == xs[0];
    } else {
      var tail := Join(xs[1..], sep);
      SplitJoin(xs[1..], sep);
      SplitPrefix(xs[0], [sep] + tail, sep);
      assert xs[0] + [sep] + tail == xs[0] + ([sep] + tail);
      assert ([sep] + tail)[1..] == tail;
      assert Split([sep] + tail, sep) == [""] + Split(tail, sep);
      assert Join(xs, sep) == xs[0] + [sep] + tail;
      assert xs[0] + "" == xs[0];
      assert xs == [xs[0]] + xs[1..];
    }
  }

  /** Joining one more piece adds the separator and the piece at the end. */
  lemma {:induction false} JoinSnoc(xs: seq<string>, y: string, sep: char)
    requires |xs| >= 1
    ensures Join(xs + [y], sep) == Join(xs, sep) + [sep] + y
  {
    if |xs| > 1 {
      JoinSnoc(xs[1..], y, sep);
      assert (xs + [y])[1..] == xs[1..] + [y];
    }
  }

  /** True when `pat` starts somewhere inside `s`. */
  predicate Occurs(pat: string, s: string) {
    exists k :: 0 <= k <= |s| && pat <= s[k..]
  }

  /** `s.replace(pat, rep)`: left to right, non-overlapping. */
  function Replace(s: string, pat: string, rep: string): string
    requires pat != []
  {
    if s == [] then []
    else if pat <= s then rep + Replace(s[|pat|..], pat, rep)
    else [s[0]] + Replace(s[1..], pat, rep)
  }

  /** Replacing a pattern that does not occur leaves the string unchanged. */
  lemma {:induction false} ReplaceAbsent(s: string, pat: string, rep: string)
    requires pat != [] && !Occurs(pat, s)
    ensures Replace(s, pat, rep) == s
  {
    if s != [] {
      assert s[0..] == s;
      ReplaceAbsent(s[1..], pat, rep);
    }
  }

  /** A replacement never introduces a character found neither in `s` nor in `rep`. */
  lemma {:induction false} ReplaceCharFree(s: string, pat: string, rep: string, c: char)
    requires pat != [] && c !in s && c !in rep
    ensures c !in Replace(s, pat, rep)
  {
    if s != [] {
      if pat <= s {
        assert c !in s[|pat|..];
        ReplaceCharFree(s[|pat|..], pat, rep, c);
      } else {
        assert c !in s[1..];
        ReplaceCharFree(s[1..], pat, rep, c);
      }
    }
  }

  /** Text at the head of a replacement result that shares no character with `rep`
      was already at the head of the input. */
  lemma {:induction false} ReplaceHead(s: string, pat: string, rep: string, w: string)
    requires pat != [] && rep != []
    requires forall k :: 0 <= k < |w| ==> w[k] !in rep
    ensures w <= Replace(s, pat, rep) ==> w <= s
  {
    if w != [] && s != [] {
      var r := Replace(s, pat, rep);
      if pat <= s {
        assert r[0] == rep[0];
        assert w[0] != rep[0];
      } else {
        var tail := Replace(s[1..], pat, rep);
        assert r == [s[0]] + tail;
        ReplaceHead(s[1..], pat, rep, w[1..]);
        if w <= r {
          assert w[1..] <= tail;
          assert s == [s[0]] + s[1..];
        }
      }
    }
  }

  /** Occurrences in a suffix are occurrences in the whole string. */
  lemma OccursSuffix(pat: string, s: string, n: nat)
    requires n <= |s| && Occurs(pat, s[n..])
    ensures Occurs(pat, s)
  {
    var k :| 0 <= k <= |s[n..]| && pat <= s[n..][k..];
    assert s[n..][k..] == s[n + k..];
  }

  /** A replacement creates no new occurrence of a text that shares no character with
      `rep`; in particular it leaves no occurrence of `pat` itself when `rep` shares no
      character with `pat`. */
  lemma {:induction false} ReplaceNoOccurrence(s: string, pat: string, rep: string, q: string)
    requires pat != [] && rep != [] && q != []
    requires forall k :: 0 <= k < |q| ==> q[k] !in rep
    requires q == pat || !Occurs(q, s)
    ensures !Occurs(q, Replace(s, pat, rep))
  {
    var r := Replace(s, pat, rep);
    if s == [] {
      assert !(q <= r[0..]);
    } else if pat <= s {
      var rest := s[|pat|..];
      if q != pat && Occurs(q, rest) {
        OccursSuffix(q, s, |pat|);
      }
      ReplaceNoOccurrence(rest, pat, rep, q);
      FreshHead(rep, Replace(rest, pat, rep), q);
    } else {
      var rest := s[1..];
      if q != pat && Occurs(q, rest) {
        OccursSuffix(q, s, 1);
      }
      ReplaceNoOccurrence(rest, pat, rep, q);
      HeadNoOccurrence(s, pat, rep, q);
      ConsNoOccurrence(s[0], Replace(rest, pat, rep), q);
    }
  }

  /** Text free of every character of `q` cannot start an occurrence of `q`. */
  lemma FreshHead(rep: string, tail: string, q: string)
    requires q != [] && (forall k :: 0 <= k < |q| ==> q[k] !in rep) && !Occurs(q, tail)
    ensures !Occurs(q, rep + tail)
  {
    var r := rep + tail;
    forall k | 0 <= k <= |r| ensures !(q <= r[k..]) {
      if k < |rep| {
        assert r[k..][0] == rep[k];
      } else {
        assert r[k..] == tail[k - |rep|..];
      }
    }
  }

  /** One character in front of a text without `q` starts no occurrence unless `q`
      itself is at the front. */
  lemma ConsNoOccurrence(c: char, tail: string, q: string)
    requires !Occurs(q, tail) && !(q <= [c] + tail)
    ensures !Occurs(q, [c] + tail)
  {
    var r := [c] + tail;
    forall k | 0 <= k <= |r| ensures !(q <= r[k..]) {
      if k == 0 {
        assert r[0..] == r;
      } else {
        assert r[k..] == tail[k - 1..];
      }
    }
  }

  /** Where the input does not start with `pat`, the result starts with `q` only if the
      input did. */
  lemma HeadNoOccurrence(s: string, pat: string, rep: string, q: string)
    requires pat != [] && rep != [] && q != [] && s != [] && !(pat <= s)
    requires forall k :: 0 <= k < |q| ==> q[k] !in rep
    requires q == pat || !Occurs(q, s)
    ensures !(q <= Replace(s, pat, rep))
  {
    var rest := s[1..];
    var r := Replace(s, pat, rep);
    assert r == [s[0]] + Replace(rest, pat, rep);
    ReplaceHead(rest, pat, rep, q[1..]);
    assert s == [s[0]] + rest;
    assert q <= r ==> q <= s;
    assert s[0..] == s;
  }
}
