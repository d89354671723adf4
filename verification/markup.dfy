/**
 * The per-line text rewrites of the Markdown-to-PDF converter: the bullet and
 * numbered-item clean-up, and the paragraph rewrite that turns `**bold**` and
 * `` `code` `` into reportlab markup, escapes the XML specials and then restores
 * the four tags reportlab is allowed to see.
 */
module Markup {
  import opened Wrappers
  import opened Text

  // ---------------------------------------------------------------------------
  // `re.sub(D(.+?)D, OPEN\1CLOSE, text)` for a literal delimiter D
  // ---------------------------------------------------------------------------

  /** The non-greedy `.+?` looking for the closing delimiter: the first index at or
      after `j` where `d` starts, unless a newline (which `.` does not match) comes
      first or the text runs out. */
  function Close(s: string, d: string, j: nat): (r: Option<nat>)
    requires d != [] && j <= |s|
    decreases |s| - j
    ensures r.Some? ==> j <= r.value && r.value + |d| <= |s| && d <= s[r.value..]
    ensures r.Some? ==> forall k :: j <= k < r.value ==> !(d <= s[k..]) && s[k] != '\n'
  {
    if d <= s[j..] then Some(j)
    else if j == |s| || s[j] == '\n' then None
    else Close(s, d, j + 1)
  }

  /** A match of `D(.+?)D` at the start of `s`: the index of the closing delimiter.
      The group holds at least one character. */
  function Span(s: string, d: string): (r: Option<nat>)
    requires d != []
    ensures r.Some? ==> d <= s && |d| < r.value && r.value + |d| <= |s| && d <= s[r.value..]
  {
    if d <= s && |d| < |s| && s[|d|] != '\n' then Close(s, d, |d| + 1) else None
  }

  /** `re.sub` with the pattern `D(.+?)D`: matches are taken left to right and do not
      overlap; each becomes `open`, the group, `close`. */
  function Substitute(s: string, d: string, open: string, close: string): string
    requires d != []
    decreases |s|
  {
    if s == [] then []
    else
      match Span(s, d)
      case Some(j) => open + s[|d|..j] + close + Substitute(s[j + |d|..], d, open, close)
      case None => [s[0]] + Substitute(s[1..], d, open, close)
  }

  const BoldOpen: string := "<b>"
  const BoldClose: string := "</b>"
  const CodeOpen: string := "<font face=\"Courier\">"
  const CodeClose: string := "</font>"

  /** `re.sub(r'\*\*(.+?)\*\*', r'<b>\1</b>', text)` */
  function Bold(s: string): string
  {
    Substitute(s, "**", BoldOpen, BoldClose)
  }

  /** `re.sub(r'`(.+?)`', r'<font face="Courier">\1</font>', text)` */
  function Code(s: string): string
  {
    Substitute(s, "`", CodeOpen, CodeClose)
  }

  lemma CloseFirst(s: string, d: string, j: nat, e: nat)
    requires d != [] && j <= e && e + |d| <= |s| && d <= s[e..]
    requires forall k :: j <= k < e ==> !(d <= s[k..]) && s[k] != '\n'
    decreases e - j
    ensures Close(s, d, j) == Some(e)
  {
    if j < e {
      CloseFirst(s, d, j + 1, e);
    }
  }

  /** A text whose first character does not start the delimiter keeps that character. */
  lemma SubstituteSkip(s: string, d: string, open: string, close: string)
    requires d != [] && s != [] && s[0] != d[0]
    ensures Substitute(s, d, open, close) == [s[0]] + Substitute(s[1..], d, open, close)
  {
    assert !(d <= s);
  }

  /** Text that holds no first character of the delimiter passes through unchanged. */
  lemma {:induction false} SubstitutePrefix(a: string, t: string, d: string, open: string, close: string)
    requires d != [] && d[0] !in a
    ensures Substitute(a + t, d, open, close) == a + Substitute(t, d, open, close)
  {
    if a != [] {
      Uncons(a, t);
      SubstituteSkip(a + t, d, open, close);
      SubstitutePrefix(a[1..], t, d, open, close);
      Uncons(a, Substitute(t, d, open, close));
    } else {
      assert a + t == t;
    }
  }

  /** Text in which the delimiter never occurs is left unchanged. */
  lemma {:induction false} SubstituteAbsent(s: string, d: string, open: string, close: string)
    requires d != [] && !Occurs(d, s)
    ensures Substitute(s, d, open, close) == s
  {
    if s != [] {
      assert s[0..] == s;
      assert Span(s, d) == None;
      if Occurs(d, s[1..]) {
        OccursSuffix(d, s, 1);
      }
      SubstituteAbsent(s[1..], d, open, close);
    }
  }

  /** A non-empty single-line word free of the delimiter's first character, written
      between two delimiters, is wrapped in the open and close tags; the rest of the
      text is rewritten on its own. */
  lemma SubstituteWrap(w: string, t: string, d: string, open: string, close: string)
    requires d != [] && w != [] && d[0] !in w && '\n' !in w
    ensures Substitute(d + w + d + t, d, open, close) == open + w + close + Substitute(t, d, open, close)
  {
    var s := d + w + d + t;
    var e := |d| + |w|;
    WrapParts(w, t, d);
    WrapInside(w, t, d);
    assert s[|d|] != '\n' by { assert w[0] in w; }
    CloseFirst(s, d, |d| + 1, e);
    assert Span(s, d) == Some(e);
  }

  /** Where the pieces of `d + w + d + t` sit. */
  lemma WrapParts(w: string, t: string, d: string)
    requires w != []
    ensures var s := d + w + d + t; var e := |d| + |w|;
      && d <= s && s[|d|] == w[0] && s[|d|..e] == w
      && s[e..] == d + t && d <= s[e..] && s[e + |d|..] == t
  {
    var s := d + w + d + t;
    var e := |d| + |w|;
    assert s[..|d|] == d;
    assert s[e..] == d + t;
  }

  /** Inside the word, the delimiter never starts and no newline occurs. */
  lemma WrapInside(w: string, t: string, d: string)
    requires d != [] && d[0] !in w && '\n' !in w
    ensures var s := d + w + d + t;
      forall k :: |d| + 1 <= k < |d| + |w| ==> !(d <= s[k..]) && s[k] != '\n'
  {
    var s := d + w + d + t;
    forall k | |d| + 1 <= k < |d| + |w|
      ensures !(d <= s[k..]) && s[k] != '\n'
    {
      assert s[k] == w[k - |d|];
    }
  }

  // ---------------------------------------------------------------------------
  // XML escaping
  // ---------------------------------------------------------------------------

  predicate Special(c: char) {
    c == '&' || c == '<' || c == '>'
  }

  predicate NoSpecial(s: string) {
    forall k :: 0 <= k < |s| ==> !Special(s[k])
  }

  /** The entity one character is escaped to. */
  function EscapeChar(c: char): (r: string)
    ensures Special(c) ==> r != [] && r[0] == '&'
    ensures !Special(c) ==> r == [c]
  {
    if c == '&' then "&amp;" else if c == '<' then "&lt;" else if c == '>' then "&gt;" else [c]
  }

  /** Escaping, one character at a time. */
  function EscapeChars(s: string): string
  {
    if s == [] then [] else EscapeChar(s[0]) + EscapeChars(s[1..])
  }

  /** `text.replace('&', '&amp;').replace('<', '&lt;').replace('>', '&gt;')` */
  function Escape(s: string): string
  {
    Replace(Replace(Replace(s, "&", "&amp;"), "<", "&lt;"), ">", "&gt;")
  }

  /** Reading the three entities back into the characters they stand for. */
  function Unescape(s: string): string
  {
    if s == [] then []
    else if "&amp;" <= s then "&" + Unescape(s[5..])
    else if "&lt;" <= s then "<" + Unescape(s[4..])
    else if "&gt;" <= s then ">" + Unescape(s[4..])
    else [s[0]] + Unescape(s[1..])
  }

  lemma ReplaceCons(c: char, r: string, p: char, rep: string)
    ensures Replace([c] + r, [p], rep) == (if c == p then rep else [c]) + Replace(r, [p], rep)
  {
    var s := [c] + r;
    assert s[0] == c && s[1..] == r;
    assert [p] <= s <==> c == p;
  }

  lemma {:induction false} ReplaceCharConcat(a: string, b: string, p: char, rep: string)
    ensures Replace(a + b, [p], rep) == Replace(a, [p], rep) + Replace(b, [p], rep)
  {
    if a != [] {
      assert a + b == [a[0]] + (a[1..] + b);
      assert a == [a[0]] + a[1..];
      ReplaceCons(a[0], a[1..] + b, p, rep);
      ReplaceCons(a[0], a[1..], p, rep);
      ReplaceCharConcat(a[1..], b, p, rep);
    } else {
      assert a + b == b;
    }
  }

  lemma {:induction false} ReplaceCharAbsent(s: string, p: char, rep: string)
    requires p !in s
    ensures Replace(s, [p], rep) == s
  {
    if s != [] {
      assert s == [s[0]] + s[1..];
      ReplaceCons(s[0], s[1..], p, rep);
      ReplaceCharAbsent(s[1..], p, rep);
    }
  }

  /** The three chained replacements escape each character on its own: `&` goes first,
      so the ampersands of `&lt;` and `&gt;` are never escaped twice. */
  lemma {:induction false} EscapeAsChars(s: string)
    ensures Escape(s) == EscapeChars(s)
  {
    if s != [] {
      var c, r := s[0], s[1..];
      assert s == [c] + r;
      var a := if c == '&' then "&amp;" else [c];
      ReplaceCons(c, r, '&', "&amp;");
      var r1 := Replace(r, "&", "&amp;");
      ReplaceCharConcat(a, r1, '<', "&lt;");
      var b := Replace(a, "<", "&lt;");
      if c == '<' {
        ReplaceCons(c, [], '<', "&lt;");
      } else {
        ReplaceCharAbsent(a, '<', "&lt;");
      }
      var r2 := Replace(r1, "<", "&lt;");
      ReplaceCharConcat(b, r2, '>', "&gt;");
      if c == '>' {
        ReplaceCons(c, [], '>', "&gt;");
      } else {
        ReplaceCharAbsent(b, '>', "&gt;");
      }
      EscapeAsChars(r);
    }
  }

  lemma {:induction false} EscapeCharsConcat(a: string, b: string)
    ensures EscapeChars(a + b) == EscapeChars(a) + EscapeChars(b)
  {
    if a != [] {
      assert (a + b)[0] == a[0] && (a + b)[1..] == a[1..] + b;
      EscapeCharsConcat(a[1..], b);
    } else {
      assert a + b == b;
    }
  }

  /** Text without the three specials is its own escape. */
  lemma {:induction false} EscapePlain(s: string)
    requires NoSpecial(s)
    ensures EscapeChars(s) == s
  {
    if s != [] {
      EscapePlain(s[1..]);
      assert s == [s[0]] + s[1..];
    }
  }

  /** Round trip: unescaping the escaped text gives the text back. */
  lemma {:induction false} UnescapeEscape(s: string)
    ensures Unescape(EscapeChars(s)) == s
  {
    if s != [] {
      var c, e, rest := s[0], EscapeChar(s[0]), EscapeChars(s[1..]);
      var x := e + rest;
      assert x[..|e|] == e && x[|e|..] == rest;
      if c == '&' {
        assert "&amp;" <= x;
      } else if c == '<' {
        assert x[1] == 'l';
        assert "&lt;" <= x;
      } else if c == '>' {
        assert x[1] == 'g';
        assert "&gt;" <= x;
      } else {
        assert x[0] == c;
      }
      UnescapeEscape(s[1..]);
      assert s == [s[0]] + s[1..];
    }
  }

  // ---------------------------------------------------------------------------
  // Safe markup: what the paragraph text is made of
  // ---------------------------------------------------------------------------

  /** The length of the markup token `s` starts with, or 0 when it starts none: an
      ordinary character, one of the three entities, or one of the four tags. No token
      is a prefix of another, so the reading is unique. */
  function TokenLength(s: string): (n: nat)
    ensures n <= |s|
  {
    if s == [] then 0
    else if !Special(s[0]) then 1
    else if "&amp;" <= s then 5
    else if "&lt;" <= s then 4
    else if "&gt;" <= s then 4
    else if BoldOpen <= s then |BoldOpen|
    else if BoldClose <= s then |BoldClose|
    else if CodeOpen <= s then |CodeOpen|
    else if CodeClose <= s then |CodeClose|
    else 0
  }

  /** Text that reads as a sequence of tokens: every `&` starts an entity, and every
      `<` and `>` belongs to one of the four allowed tags. */
  predicate Safe(s: string)
    decreases |s|
  {
    s == [] || (TokenLength(s) > 0 && Safe(s[TokenLength(s)..]))
  }

  /** The token a text starts with is read the same way in any text starting with it. */
  lemma TokenShared(s: string, u: string)
    requires TokenLength(s) > 0 && s[..TokenLength(s)] <= u
    ensures TokenLength(u) == TokenLength(s)
  {
    var n := TokenLength(s);
    assert u[..n] == s[..n];
    assert u[0] == s[0];
    if n > 1 {
      assert u[1] == s[1];
    }
    if n > 2 {
      assert u[2] == s[2];
    }
  }

  /** Only its first character can be an ampersand. */
  lemma TokenTail(s: string)
    requires TokenLength(s) > 0
    ensures forall k :: 1 <= k < TokenLength(s) ==> s[k] != '&'
  {
  }

  lemma {:induction false} SafeConcat(a: string, b: string)
    requires Safe(a) && Safe(b)
    ensures Safe(a + b)
  {
    if a != [] {
      var n := TokenLength(a);
      TokenShared(a, a + b);
      assert (a + b)[n..] == a[n..] + b;
      SafeConcat(a[n..], b);
    } else {
      assert a + b == b;
    }
  }

  /** A safe text that starts with a safe word leaves a safe text after the word. */
  lemma {:induction false} SafeSkip(w: string, s: string)
    requires Safe(w) && Safe(s) && w <= s
    ensures Safe(s[|w|..])
  {
    if w != [] {
      var n := TokenLength(w);
      TokenShared(w, s);
      assert w[n..] <= s[n..];
      SafeSkip(w[n..], s[n..]);
      assert s[n..][|w| - n..] == s[|w|..];
    }
  }

  /** Every escaped text is safe. */
  lemma {:induction false} EscapeSafe(s: string)
    ensures Safe(EscapeChars(s))
  {
    if s != [] {
      var e := EscapeChar(s[0]);
      assert TokenLength(e) == |e|;
      assert e[|e|..] == [];
      EscapeSafe(s[1..]);
      SafeConcat(e, EscapeChars(s[1..]));
    }
  }

  /** Replacing skips a text head that holds the pattern's first character only at its start. */
  lemma {:induction false} ReplacePass(t: string, z: string, pat: string, rep: string)
    requires pat != [] && !(pat <= t + z)
    requires forall k :: 1 <= k < |t| ==> t[k] != pat[0]
    ensures Replace(t + z, pat, rep) == t + Replace(z, pat, rep)
  {
    if t != [] {
      assert (t + z)[1..] == t[1..] + z;
      if |t| > 1 {
        assert (t[1..] + z)[0] == t[1];
        ReplacePass(t[1..], z, pat, rep);
      } else {
        assert t[1..] + z == z;
      }
      assert t == [t[0]] + t[1..];
    } else {
      assert t + z == z;
    }
  }

  /** Replacing an entity-led safe pattern by a safe text keeps the text safe. */
  lemma {:induction false} ReplaceSafe(s: string, pat: string, rep: string)
    requires pat != [] && pat[0] == '&' && Safe(pat) && Safe(rep) && Safe(s)
    decreases |s|
    ensures Safe(Replace(s, pat, rep))
  {
    if s != [] {
      if pat <= s {
        SafeSkip(pat, s);
        ReplaceSafe(s[|pat|..], pat, rep);
        SafeConcat(rep, Replace(s[|pat|..], pat, rep));
      } else {
        var n := TokenLength(s);
        TokenPass(s, pat, rep);
        ReplaceSafe(s[n..], pat, rep);
        SafeConcat(s[..n], Replace(s[n..], pat, rep));
      }
    }
  }

  /** A replacement whose pattern is not at the head passes over the first token whole. */
  lemma TokenPass(s: string, pat: string, rep: string)
    requires pat != [] && pat[0] == '&' && Safe(s) && s != [] && !(pat <= s)
    ensures var n := TokenLength(s);
      && 0 < n && Safe(s[..n]) && Safe(s[n..])
      && Replace(s, pat, rep) == s[..n] + Replace(s[n..], pat, rep)
  {
    var n := TokenLength(s);
    var t, z := s[..n], s[n..];
    assert s == t + z;
    TokenTail(s);
    ReplacePass(t, z, pat, rep);
    TokenShared(s, t);
    assert t[n..] == [];
  }

  /** Inside a single token a `<` only opens a tag. */
  lemma TokenLess(s: string, k: nat)
    requires TokenLength(s) > 0 && k < TokenLength(s) && s[k] == '<'
    ensures k == 0 && (BoldOpen <= s || BoldClose <= s || CodeOpen <= s || CodeClose <= s)
  {
  }

  /** Inside a single token a `>` only ends a tag. */
  lemma TokenGreater(s: string, k: nat)
    requires TokenLength(s) > 0 && k < TokenLength(s) && s[k] == '>'
    ensures var p := s[..k + 1]; p == BoldOpen || p == BoldClose || p == CodeOpen || p == CodeClose
  {
    if BoldOpen <= s {
      TagGreater(BoldOpen, s, k);
    } else if BoldClose <= s {
      TagGreater(BoldClose, s, k);
    } else if CodeOpen <= s {
      TagGreater(CodeOpen, s, k);
    } else if CodeClose <= s {
      TagGreater(CodeClose, s, k);
    }
  }

  /** The only `>` of a tag is its last character. */
  lemma TagGreater(t: string, s: string, k: nat)
    requires t == BoldOpen || t == BoldClose || t == CodeOpen || t == CodeClose
    requires t <= s && k < |s| && s[k] == '>'
    ensures k < |t| ==> s[..k + 1] == t
  {
    if k < |t| {
      assert t[k] == '>';
      assert k == |t| - 1;
      assert s[..|t|] == t;
    }
  }

  lemma EndsWithItself(p: string)
    ensures EndsWith(p, p)
  {
    assert p[0..] == p;
  }

  /** Inside a single token an `&` only starts an entity. */
  lemma TokenAmpersand(s: string, k: nat)
    requires TokenLength(s) > 0 && k < TokenLength(s) && s[k] == '&'
    ensures k == 0 && ("&amp;" <= s || "&lt;" <= s || "&gt;" <= s)
  {
  }

  predicate EndsWith(p: string, t: string) {
    |p| >= |t| && p[|p| - |t|..] == t
  }

  /** The text ends with one of the four tags. */
  predicate TagClosed(p: string) {
    EndsWith(p, BoldOpen) || EndsWith(p, BoldClose) || EndsWith(p, CodeOpen) || EndsWith(p, CodeClose)
  }

  lemma EndsWithExtend(q: string, p: string, t: string)
    requires EndsWith(p, t)
    ensures EndsWith(q + p, t)
  {
    assert (q + p)[|q + p| - |t|..] == p[|p| - |t|..];
  }

  lemma TagClosedExtend(q: string, p: string)
    requires TagClosed(p)
    ensures TagClosed(q + p)
  {
    if EndsWith(p, BoldOpen) {
      EndsWithExtend(q, p, BoldOpen);
    } else if EndsWith(p, BoldClose) {
      EndsWithExtend(q, p, BoldClose);
    } else if EndsWith(p, CodeOpen) {
      EndsWithExtend(q, p, CodeOpen);
    } else {
      EndsWithExtend(q, p, CodeClose);
    }
  }

  lemma DropParts(s: string, n: nat, k: nat)
    requires n <= k < |s|
    ensures s[n..][k - n..] == s[k..] && s[n..][k - n] == s[k]
    ensures s[..k + 1] == s[..n] + s[n..][..k - n + 1]
  {
  }

  /** In a safe text every `<` opens one of the four tags, every `>` closes one, and
      every `&` starts one of the three entities. */
  lemma {:induction false} SafeSpecials(s: string, k: nat)
    requires Safe(s) && k < |s|
    ensures s[k] == '<' ==> BoldOpen <= s[k..] || BoldClose <= s[k..] || CodeOpen <= s[k..] || CodeClose <= s[k..]
    ensures s[k] == '>' ==> TagClosed(s[..k + 1])
    ensures s[k] == '&' ==> "&amp;" <= s[k..] || "&lt;" <= s[k..] || "&gt;" <= s[k..]
  {
    var n := TokenLength(s);
    if k < n {
      if s[k] == '<' {
        TokenLess(s, k);
      } else if s[k] == '>' {
        TokenGreater(s, k);
        EndsWithItself(s[..k + 1]);
      } else if s[k] == '&' {
        TokenAmpersand(s, k);
      }
      assert s[0..] == s;
    } else {
      SafeSpecials(s[n..], k - n);
      DropParts(s, n, k);
      if s[k] == '>' {
        TagClosedExtend(s[..n], s[n..][..k - n + 1]);
      }
    }
  }

  // ---------------------------------------------------------------------------
  // The three line rewrites
  // ---------------------------------------------------------------------------

  /** `text.replace('&lt;word&gt;', '<word>')`: one allowed tag put back. */
  function RestoreTag(s: string, word: string): string
  {
    Replace(s, "&lt;" + word + "&gt;", "<" + word + ">")
  }

  /** The four replacements that put `<b>`, `</b>`, `<font face="Courier">` and
      `</font>` back after escaping, in that order. */
  function Restore(s: string): string
  {
    RestoreTag(RestoreTag(RestoreTag(RestoreTag(s, "b"), "/b"), "font face=\"Courier\""), "/font")
  }

  /** A regular paragraph line: bold, then inline code, then escaping, then restoring. */
  function ParagraphText(line: string): string
  {
    Restore(Escape(Code(Bold(line))))
  }

  /** An angle-bracketed word of ordinary characters escapes to `&lt;`, the word, `&gt;`. */
  lemma EscapeBracketed(word: string)
    requires NoSpecial(word)
    ensures EscapeChars("<" + word + ">") == "&lt;" + word + "&gt;"
  {
    var lt, gt := EscapeChars("<"), EscapeChars(">");
    assert lt == "&lt;" && gt == "&gt;";
    EscapePlain(word);
    EscapeCharsConcat("<", word);
    EscapeCharsConcat("<" + word, ">");
  }

  /** The restore pattern of a tag is the tag's escaped form, and is safe. */
  lemma TagForm(word: string)
    requires NoSpecial(word)
    ensures EscapeChars("<" + word + ">") == "&lt;" + word + "&gt;"
    ensures Safe("&lt;" + word + "&gt;")
  {
    EscapeBracketed(word);
    EscapeSafe("<" + word + ">");
  }

  lemma TagSafe(t: string)
    requires t == BoldOpen || t == BoldClose || t == CodeOpen || t == CodeClose
    ensures Safe(t)
  {
    assert t[0] == '<';
    assert !("&amp;" <= t) && !("&lt;" <= t) && !("&gt;" <= t);
    if t == BoldOpen {
      assert TokenLength(t) == |t|;
    } else if t == BoldClose {
      assert !(BoldOpen <= t) by { assert t[1] == '/'; }
      assert TokenLength(t) == |t|;
    } else if t == CodeOpen {
      assert !(BoldOpen <= t) by { assert t[1] == 'f'; }
      assert !(BoldClose <= t) by { assert t[1] == 'f'; }
      assert TokenLength(t) == |t|;
    } else {
      assert !(BoldOpen <= t) by { assert t[1] == '/'; }
      assert !(BoldClose <= t) by { assert t[2] == 'f'; }
      assert !(CodeOpen <= t) by { assert t[1] == '/'; }
      assert TokenLength(t) == |t|;
    }
    assert t[|t|..] == [];
  }

  /** Putting back one tag keeps an escaped text safe. */
  lemma RestoreTagSafe(s: string, word: string)
    requires Safe(s) && Safe("<" + word + ">")
    requires NoSpecial(word)
    ensures Safe(RestoreTag(s, word))
  {
    TagForm(word);
    ReplaceSafe(s, "&lt;" + word + "&gt;", "<" + word + ">");
  }

  /** The four tags, each a word between angle brackets, are safe. */
  lemma TagsSafe()
    ensures Safe("<" + "b" + ">") && Safe("<" + "/b" + ">")
    ensures Safe("<" + "font face=\"Courier\"" + ">") && Safe("<" + "/font" + ">")
  {
    assert BoldOpen == "<" + "b" + ">" && BoldClose == "<" + "/b" + ">";
    assert CodeOpen == "<" + "font face=\"Courier\"" + ">" && CodeClose == "<" + "/font" + ">";
    TagSafe(BoldOpen);
    TagSafe(BoldClose);
    TagSafe(CodeOpen);
    TagSafe(CodeClose);
  }

  lemma TagWordsPlain()
    ensures NoSpecial("b") && NoSpecial("/b") && NoSpecial("font face=\"Courier\"") && NoSpecial("/font")
  {
  }

  /** Restoring the four tags keeps a safe text safe. */
  lemma RestoreSafe(s: string)
    requires Safe(s)
    ensures Safe(Restore(s))
  {
    TagsSafe();
    TagWordsPlain();
    RestoreTagSafe(s, "b");
    var s1 := RestoreTag(s, "b");
    RestoreTagSafe(s1, "/b");
    var s2 := RestoreTag(s1, "/b");
    RestoreTagSafe(s2, "font face=\"Courier\"");
    RestoreTagSafe(RestoreTag(s2, "font face=\"Courier\""), "/font");
  }

  /** Whatever the line, the paragraph text is safe markup: a `<` or `>` occurs only
      inside one of the four allowed tags, and any other `&`, `<` or `>` of the line
      comes out as an entity. */
  lemma ParagraphSafe(line: string)
    ensures Safe(ParagraphText(line))
  {
    EscapeAsChars(Code(Bold(line)));
    EscapeSafe(Code(Bold(line)));
    RestoreSafe(Escape(Code(Bold(line))));
  }

  /** A character that is neither an XML special nor a markup delimiter. */
  predicate Ordinary(c: char) {
    !Special(c) && c != '*' && c != '`'
  }

  /** A pattern whose first character is missing from a text does not occur in it. */
  lemma HeadAbsent(pat: string, s: string)
    requires pat != [] && pat[0] !in s
    ensures !Occurs(pat, s)
  {
    forall k | 0 <= k <= |s|
      ensures !(pat <= s[k..])
    {
      if k < |s| {
        assert s[k..][0] == s[k];
      }
    }
  }

  /** A text without ampersands has no escaped tag to put back. */
  lemma RestoreAbsent(s: string, word: string)
    requires '&' !in s
    ensures RestoreTag(s, word) == s
  {
    HeadAbsent("&lt;" + word + "&gt;", s);
    ReplaceAbsent(s, "&lt;" + word + "&gt;", "<" + word + ">");
  }

  /** A line of plain characters is its own paragraph text. */
  lemma ParagraphPlain(line: string)
    requires forall k :: 0 <= k < |line| ==> Ordinary(line[k])
    ensures ParagraphText(line) == line
  {
    HeadAbsent("**", line);
    SubstituteAbsent(line, "**", BoldOpen, BoldClose);
    HeadAbsent("`", line);
    SubstituteAbsent(line, "`", CodeOpen, CodeClose);
    EscapeAsChars(line);
    EscapePlain(line);
    RestoreAbsent(line, "b");
    RestoreAbsent(line, "/b");
    RestoreAbsent(line, "font face=\"Courier\"");
    RestoreAbsent(line, "/font");
  }

  /** The checkbox and status marks a bullet item may carry, and their replacements. */
  const Check: char := '\U{2705}'
  const Cross: char := '\U{274C}'
  const Ticked: char := '\U{2713}'
  const Crossed: char := '\U{2717}'
  const BoxOpen: char := '\U{2610}'
  const BoxDone: char := '\U{2611}'
  const BulletMark: char := '\U{2022}'

  /** A bullet line: the two-character marker dropped, the marks substituted, and
      the bullet prefixed. */
  function BulletText(line: string): (r: string)
    requires |line| >= 2
  {
    [BulletMark, ' '] + Marks(line[2..])
  }

  /** The four chained replacements of a bullet item, in source order. */
  function Marks(t: string): string
  {
    Replace(Replace(Replace(Replace(t, [Check], [Ticked]), [Cross], [Crossed]), "[ ]", [BoxOpen]), "[x]", [BoxDone])
  }

  /** After the rewrite no check or cross mark and no `[ ]` or `[x]` box is left. */
  lemma BulletMarksGone(line: string)
    requires |line| >= 2
    ensures var r := BulletText(line);
      && [BulletMark, ' '] <= r
      && Check !in r && Cross !in r
      && !Occurs("[ ]", r) && !Occurs("[x]", r)
  {
    var t1 := Replace(line[2..], [Check], [Ticked]);
    var t2 := Replace(t1, [Cross], [Crossed]);
    var t3 := Replace(t2, "[ ]", [BoxOpen]);
    var t4 := Replace(t3, "[x]", [BoxDone]);
    ReplaceNoOccurrence(line[2..], [Check], [Ticked], [Check]);
    OccursChar(Check, t1);
    ReplaceCharFree(t1, [Cross], [Crossed], Check);
    ReplaceCharFree(t2, "[ ]", [BoxOpen], Check);
    ReplaceCharFree(t3, "[x]", [BoxDone], Check);
    ReplaceNoOccurrence(t1, [Cross], [Crossed], [Cross]);
    OccursChar(Cross, t2);
    ReplaceCharFree(t2, "[ ]", [BoxOpen], Cross);
    ReplaceCharFree(t3, "[x]", [BoxDone], Cross);
    ReplaceNoOccurrence(t2, "[ ]", [BoxOpen], "[ ]");
    ReplaceNoOccurrence(t3, "[x]", [BoxDone], "[ ]");
    ReplaceNoOccurrence(t3, "[x]", [BoxDone], "[x]");
    OccursPrefix("[ ]", [BulletMark, ' '], t4);
    OccursPrefix("[x]", [BulletMark, ' '], t4);
    OccursChar(Check, [BulletMark, ' '] + t4);
  }

  /** A one-character pattern occurs exactly where its character does. */
  lemma OccursChar(c: char, s: string)
    ensures Occurs([c], s) <==> c in s
  {
    if c in s {
      var k :| 0 <= k < |s| && s[k] == c;
      assert [c] <= s[k..];
    }
    if Occurs([c], s) {
      var k :| 0 <= k <= |s| && [c] <= s[k..];
      assert s[k] == c;
    }
  }

  /** A pattern starting with `[` does not occur across a bullet prefix. */
  lemma OccursPrefix(q: string, p: string, t: string)
    requires q != [] && q[0] == '[' && '[' !in p
    ensures Occurs(q, p + t) ==> Occurs(q, t)
  {
    if Occurs(q, p + t) {
      var k :| 0 <= k <= |p + t| && q <= (p + t)[k..];
      assert (p + t)[k] == '[';
      assert k >= |p|;
      assert (p + t)[k..] == t[k - |p|..];
    }
  }

  /** A bullet line without any mark or box keeps its text. */
  lemma BulletPlain(line: string)
    requires |line| >= 2
    requires Check !in line && Cross !in line && !Occurs("[ ]", line[2..]) && !Occurs("[x]", line[2..])
    ensures BulletText(line) == [BulletMark, ' '] + line[2..]
  {
    var t := line[2..];
    assert Check !in t && Cross !in t;
    OccursChar(Check, t);
    ReplaceAbsent(t, [Check], [Ticked]);
    OccursChar(Cross, t);
    ReplaceAbsent(t, [Cross], [Crossed]);
    ReplaceAbsent(t, "[ ]", [BoxOpen]);
    ReplaceAbsent(t, "[x]", [BoxDone]);
  }

  /** The four marks a bullet item may carry. */
  predicate IsMark(m: string) {
    m == [Check] || m == [Cross] || m == "[ ]" || m == "[x]"
  }

  /** The symbol each mark is rewritten to: ✅ to ✓, ❌ to ✗, `[ ]` to ☐, `[x]` to ☑. */
  function Mapped(m: string): (r: string)
    requires IsMark(m)
    ensures |r| == 1 && r[0] != '[' && r[0] != Check && r[0] != Cross
  {
    if m == [Check] then [Ticked]
    else if m == [Cross] then [Crossed]
    else if m == "[ ]" then [BoxOpen]
    else [BoxDone]
  }

  /** Text carrying no mark. */
  predicate MarkFree(t: string) {
    Check !in t && Cross !in t && !Occurs("[ ]", t) && !Occurs("[x]", t)
  }

  /** Each mark in a bullet item is rewritten, in place, to its own symbol; the text
      around it is kept. */
  lemma BulletMarkMapped(line: string, a: string, m: string, t: string)
    requires |line| >= 2 && line[2..] == a + m + t
    requires Check !in a && Cross !in a && '[' !in a
    requires IsMark(m) && MarkFree(t)
    ensures BulletText(line) == [BulletMark, ' '] + a + Mapped(m) + t
  {
    assert line[2..] == a + (m + t);
    MarksSkip(a, m + t);
    MarkRewritten(m, t);
  }

  /** Text without marks and without `[` passes through the four replacements. */
  lemma MarksSkip(a: string, u: string)
    requires Check !in a && Cross !in a && '[' !in a
    ensures Marks(a + u) == a + Marks(u)
  {
    var u1 := Replace(u, [Check], [Ticked]);
    var u2 := Replace(u1, [Cross], [Crossed]);
    var u3 := Replace(u2, "[ ]", [BoxOpen]);
    ReplaceSkip(a, u, [Check], [Ticked]);
    ReplaceSkip(a, u1, [Cross], [Crossed]);
    ReplaceSkip(a, u2, "[ ]", [BoxOpen]);
    ReplaceSkip(a, u3, "[x]", [BoxDone]);
  }

  /** The four chained replacements on one mark followed by mark-free text. */
  lemma MarkRewritten(m: string, t: string)
    requires IsMark(m) && MarkFree(t)
    ensures Marks(m + t) == Mapped(m) + t
  {
    var r := Mapped(m);
    OccursChar(Check, t);
    OccursChar(Cross, t);
    ReplaceCharAbsent(t, Check, [Ticked]);
    ReplaceCharAbsent(t, Cross, [Crossed]);
    ReplaceAbsent(t, "[ ]", [BoxOpen]);
    ReplaceAbsent(t, "[x]", [BoxDone]);
    if m == [Check] || m == [Cross] {
      ReplaceCons(m[0], t, Check, [Ticked]);
      var u1 := Replace(m + t, [Check], [Ticked]);
      ReplaceCons(u1[0], t, Cross, [Crossed]);
      assert Replace(u1, [Cross], [Crossed]) == r + t;
      ReplaceSkip(r, t, "[ ]", [BoxOpen]);
      ReplaceSkip(r, t, "[x]", [BoxDone]);
    } else if m == "[ ]" {
      ReplaceCharAbsent(m + t, Check, [Ticked]);
      ReplaceCharAbsent(m + t, Cross, [Crossed]);
      ReplaceHit(m, t, [BoxOpen]);
      ReplaceSkip(r, t, "[x]", [BoxDone]);
    } else {
      ReplaceCharAbsent(m + t, Check, [Ticked]);
      ReplaceCharAbsent(m + t, Cross, [Crossed]);
      assert !("[ ]" <= m + t) by { assert (m + t)[1] == 'x'; }
      ReplacePass(m, t, "[ ]", [BoxOpen]);
      ReplaceHit(m, t, [BoxDone]);
    }
  }

  /** Replacing passes over a head free of the pattern's first character. */
  lemma ReplaceSkip(a: string, z: string, pat: string, rep: string)
    requires pat != [] && pat[0] !in a
    ensures Replace(a + z, pat, rep) == a + Replace(z, pat, rep)
  {
    if a == [] {
      assert a + z == z;
    } else {
      assert (a + z)[0] == a[0];
      ReplacePass(a, z, pat, rep);
    }
  }

  /** A text starting with the pattern has it replaced first. */
  lemma ReplaceHit(pat: string, t: string, rep: string)
    requires pat != []
    ensures Replace(pat + t, pat, rep) == rep + Replace(t, pat, rep)
  {
    assert pat <= pat + t;
    assert (pat + t)[|pat|..] == t;
  }

  predicate IsDigit(c: char) {
    '0' <= c <= '9'
  }

  /** The length of the run of digits `s` starts with. */
  function DigitRun(s: string): nat
  {
    if s != [] && IsDigit(s[0]) then 1 + DigitRun(s[1..]) else 0
  }

  /** `re.match(r'^\d+\.', line)`: digits, then a dot. */
  predicate IsNumbered(s: string) {
    var n := DigitRun(s);
    0 < n < |s| && s[n] == '.'
  }

  /** `re.sub(r'^\d+\.\s*', '', line)`: the digits, the dot and the whitespace after
      them are removed; a line that does not match is left alone. */
  function NumberedText(s: string): string
  {
    if IsNumbered(s) then TrimStart(s[DigitRun(s) + 1..]) else s
  }

  /** The digit run is the longest prefix of digits. */
  lemma {:induction false} DigitRunSpec(s: string)
    ensures var n := DigitRun(s);
      && n <= |s|
      && (forall k :: 0 <= k < n ==> IsDigit(s[k]))
      && (n < |s| ==> !IsDigit(s[n]))
  {
    if s != [] && IsDigit(s[0]) {
      DigitRunSpec(s[1..]);
    }
  }

  /** A numbered item keeps a suffix of the line: past its number and dot only whitespace
      is dropped, and what is left does not start with whitespace. */
  lemma NumberedTextSpec(s: string)
    ensures var r := NumberedText(s);
      && |r| <= |s| && r == s[|s| - |r|..]
      && (IsNumbered(s) ==> r == [] || !IsSpace(r[0]))
      && (IsNumbered(s) ==> forall k :: DigitRun(s) < k < |s| - |r| ==> IsSpace(s[k]))
      && (!IsNumbered(s) ==> r == s)
  {
    if IsNumbered(s) {
      DropThenTrim(s, DigitRun(s) + 1);
    } else {
      assert s[0..] == s;
    }
  }

  /** Dropping `m` characters, then the leading whitespace, keeps a suffix that does
      not start with whitespace; only whitespace was dropped past the first `m`. */
  lemma DropThenTrim(s: string, m: nat)
    requires m <= |s|
    ensures var r := TrimStart(s[m..]);
      && |r| <= |s| - m && r == s[|s| - |r|..]
      && (r == [] || !IsSpace(r[0]))
      && (forall k :: m <= k < |s| - |r| ==> IsSpace(s[k]))
  {
    var t := s[m..];
    var r := TrimStart(t);
    TrimStartSpec(t);
    SuffixOfSuffix(s, m, r);
  }

  /** A suffix of a suffix is a suffix, and its characters sit at shifted indices. */
  lemma SuffixOfSuffix(s: string, m: nat, r: string)
    requires m <= |s| && |r| <= |s| - m && r == s[m..][|s| - m - |r|..]
    ensures r == s[|s| - |r|..]
    ensures forall k :: m <= k < |s| ==> s[k] == s[m..][k - m]
  {
  }

  lemma {:induction false} TrimSpaces(ws: string, w: string)
    requires forall k :: 0 <= k < |ws| ==> IsSpace(ws[k])
    requires w == [] || !IsSpace(w[0])
    ensures TrimStart(ws + w) == w
  {
    if ws != [] {
      assert (ws + w)[1..] == ws[1..] + w;
      TrimSpaces(ws[1..], w);
    } else {
      assert ws + w == w;
    }
  }

  lemma {:induction false} DigitsRun(digits: string, t: string)
    requires forall k :: 0 <= k < |digits| ==> IsDigit(digits[k])
    requires t == [] || !IsDigit(t[0])
    ensures DigitRun(digits + t) == |digits|
  {
    if digits != [] {
      assert (digits + t)[1..] == digits[1..] + t;
      DigitsRun(digits[1..], t);
    } else {
      assert digits + t == t;
    }
  }

  /** Round trip: a numbered item built from a number, a dot, some whitespace and a
      text not starting with whitespace gives back exactly that text. */
  lemma NumberedRoundTrip(digits: string, ws: string, w: string)
    requires digits != [] && forall k :: 0 <= k < |digits| ==> IsDigit(digits[k])
    requires forall k :: 0 <= k < |ws| ==> IsSpace(ws[k])
    requires w == [] || !IsSpace(w[0])
    ensures IsNumbered(digits + "." + (ws + w))
    ensures NumberedText(digits + "." + (ws + w)) == w
  {
    NumberedParts(digits, ws + w);
    DigitsRun(digits, "." + (ws + w));
    TrimSpaces(ws, w);
  }

  lemma NumberedParts(digits: string, rest: string)
    ensures digits + "." + rest == digits + ("." + rest)
    ensures (digits + "." + rest)[|digits|] == '.'
    ensures (digits + "." + rest)[|digits| + 1..] == rest
  {
  }
}
