/** What svn_subst_translate_stream3 promises about whole texts: boring
    characters are copied, every line ending becomes eol_str (or the
    translation fails on mixed endings), an unclosed keyword is written
    as it was read, and a keyword in the text is replaced by what
    translate_keyword makes of it. */
module SubstStreamLaws {
  import opened Common
  import opened SubstKeywords
  import opened SubstBuffer
  import opened SubstStream

  // ---------------------------------------------------------------------
  // Boring characters
  // ---------------------------------------------------------------------

  /** A run of characters the scan is not interested in is copied as it
      is and leaves the state boring. */
  lemma {:induction false} BoringRunCopied(cfg: Config, st: Scan, s: string, i: nat, j: nat)
    requires ValidScan(st) && Settled(st) && i <= j <= |s|
    requires forall k :: i <= k < j ==> !Interesting(cfg, s[k])
    ensures RunFrom(cfg, st, s, i) == RunFrom(cfg, st.(out := st.out + s[i..j]), s, j)
    decreases j - i
  {
    if i == j {
      assert st.out + s[i..j] == st.out;
    } else {
      var st1 := st.(out := st.out + [s[i]]);
      SettledStep(cfg, st, s[i]);
      RunUnfold(cfg, st, s, i);
      BoringRunCopied(cfg, st1, s, i + 1, j);
      assert s[i..j] == [s[i]] + s[i + 1..j];
      assert st.out + [s[i]] + s[i + 1..j] == st.out + s[i..j];
    }
  }

  /** Text with no character the scan stops at ('$' when keywords are
      translated, CR and LF when line endings are) comes out unchanged. */
  lemma PassThrough(cfg: Config, src: string)
    requires forall k :: 0 <= k < |src| ==> !Interesting(cfg, src[k])
    ensures Translate(cfg, src) == Ok(src)
  {
    BoringRunCopied(cfg, Start, src, 0, |src|);
    assert "" + src[0..|src|] == src;
    assert RunFrom(cfg, Start.(out := src), src, |src|) == Start.(out := src);
    assert src + "" == src;
  }

  /** With line endings left alone, the boring state copies a rest
      without '$' to the end. */
  lemma BoringTail(cfg: Config, st: Scan, s: string, i: nat)
    requires cfg.eol.None? && ValidScan(st) && Settled(st) && i <= |s|
    requires forall k :: i <= k < |s| ==> s[k] != '$'
    ensures Finish(cfg, RunFrom(cfg, st, s, i)) == Ok(st.out + s[i..])
  {
    BoringRunCopied(cfg, st, s, i, |s|);
    assert s[i..|s|] == s[i..];
    assert st.out + s[i..] + "" == st.out + s[i..];
  }

  // ---------------------------------------------------------------------
  // Keywords, with line endings left alone
  // ---------------------------------------------------------------------

  /** A keyword being read takes in characters other than '$', CR and LF
      while it stays shorter than SVN_KEYWORD_MAX_LEN - 1. */
  lemma {:induction false} KeywordGrows(cfg: Config, kw: string, f: string, o: string, s: string, i: nat, j: nat)
    requires 1 <= |kw| && kw[0] == '$' && i <= j <= |s| && |kw| + (j - i) <= KeywordMaxLen - 1
    requires forall k :: i <= k < j ==> s[k] != '$' && s[k] != '\r' && s[k] != '\n'
    ensures ValidScan(Scan("", kw + s[i..j], f, o))
    ensures RunFrom(cfg, Scan("", kw, f, o), s, i) == RunFrom(cfg, Scan("", kw + s[i..j], f, o), s, j)
    decreases j - i
  {
    if i == j {
      assert kw + s[i..j] == kw;
    } else {
      RunUnfold(cfg, Scan("", kw, f, o), s, i);
      assert Step(cfg, Scan("", kw, f, o), s[i]) == Scan("", kw + [s[i]], f, o);
      KeywordGrows(cfg, kw + [s[i]], f, o, s, i + 1, j);
      assert s[i..j] == [s[i]] + s[i + 1..j];
      assert kw + [s[i]] + s[i + 1..j] == kw + s[i..j];
    }
  }

  /** With line endings left alone, a keyword that is never closed is
      written exactly as it was read, whether it is flushed at a line
      ending, at SVN_KEYWORD_MAX_LEN - 1 characters or at the end. */
  lemma {:induction false} UnclosedKeywordFlushed(cfg: Config, kw: string, f: string, o: string, s: string, i: nat)
    requires cfg.eol.None? && ValidScan(Scan("", kw, f, o)) && kw != "" && i <= |s|
    requires forall k :: i <= k < |s| ==> s[k] != '$'
    ensures Finish(cfg, RunFrom(cfg, Scan("", kw, f, o), s, i)) == Ok(o + kw + s[i..])
    decreases |s| - i
  {
    var st := Scan("", kw, f, o);
    if i == |s| {
      assert s[i..] == [];
      assert o + kw + [] == o + kw;
    } else {
      var c := s[i];
      RunUnfold(cfg, st, s, i);
      assert s[i..] == [c] + s[i + 1..];
      if |kw| == KeywordMaxLen - 1 || c == '\r' || c == '\n' {
        var st1 := Scan("", "", f, o + kw + [c]);
        assert Step(cfg, st, c) == st1;
        BoringTail(cfg, st1, s, i + 1);
        assert o + kw + [c] + s[i + 1..] == o + kw + s[i..];
      } else {
        assert Step(cfg, st, c) == Scan("", kw + [c], f, o);
        UnclosedKeywordFlushed(cfg, kw + [c], f, o, s, i + 1);
        assert o + (kw + [c]) + s[i + 1..] == o + kw + s[i..];
      }
    }
  }

  /** "$" + body + "$" as the scan reads it: no '$', CR or LF inside, and
      short enough that the keyword buffer holds it. */
  predicate KeywordCandidate(body: string) {
    |body| + 2 <= KeywordMaxLen && forall k :: 0 <= k < |body| ==> body[k] != '$' && body[k] != '\r' && body[k] != '\n'
  }

  /** Where "$" + body + "$" sits in s: the two '$' and the body between. */
  lemma KeywordAt(body: string, s: string, i: nat)
    requires KeywordCandidate(body) && i + |body| + 2 <= |s|
    requires s[i..i + |body| + 2] == "$" + body + "$"
    ensures s[i] == '$' && s[i + 1 + |body|] == '$'
    ensures forall k :: i + 1 <= k < i + 1 + |body| ==> s[k] != '$' && s[k] != '\r' && s[k] != '\n'
    ensures s[i + 1..i + 1 + |body|] == body
  {
    var w := "$" + body + "$";
    assert s[i] == w[0];
    assert s[i + 1 + |body|] == w[|body| + 1];
    forall k | i + 1 <= k < i + 1 + |body| ensures s[k] == body[k - i - 1] {
      assert s[k] == s[i..i + |body| + 2][k - i] == w[k - i];
    }
  }

  /** A '$' met in the boring state starts a keyword. */
  lemma DollarOpens(cfg: Config, f: string, o: string, s: string, i: nat)
    requires cfg.keywords.Some? && i < |s| && s[i] == '$'
    ensures RunFrom(cfg, Scan("", "", f, o), s, i) == RunFrom(cfg, Scan("", "$", f, o), s, i + 1)
  {
    var st := Scan("", "", f, o);
    RunUnfold(cfg, st, s, i);
    SettledStep(cfg, st, '$');
  }

  /** The opening '$' at i and the characters up to q are taken into the
      keyword buffer. */
  lemma KeywordOpened(cfg: Config, f: string, o: string, s: string, i: nat, q: nat)
    requires cfg.keywords.Some? && i < q <= |s| && s[i] == '$' && q - i <= KeywordMaxLen - 1
    requires forall k :: i + 1 <= k < q ==> s[k] != '$' && s[k] != '\r' && s[k] != '\n'
    ensures ValidScan(Scan("", "$" + s[i + 1..q], f, o))
    ensures RunFrom(cfg, Scan("", "", f, o), s, i) == RunFrom(cfg, Scan("", "$" + s[i + 1..q], f, o), s, q)
  {
    DollarOpens(cfg, f, o, s, i);
    KeywordGrows(cfg, "$", f, o, s, i + 1, q);
  }

  /** A '$' ends the keyword being read: translate_keyword replaces it, or
      it is written as it was and the '$' starts a new one. */
  lemma KeywordCloseStep(cfg: Config, kw: string, f: string, o: string)
    requires cfg.keywords.Some? && ValidScan(Scan("", kw, f, o)) && kw != ""
    ensures var t := TranslateKeywordSpec(kw + "$", cfg.expand, cfg.keywords);
      Step(cfg, Scan("", kw, f, o), '$')
        == if t.Some? then Scan("", "", f, o + t.value) else Scan("", "$", f, o + kw)
  {
    var st := Scan("", kw, f, o);
    if TranslateKeywordSpec(kw + "$", cfg.expand, cfg.keywords).None? {
      SettledStep(cfg, FlushKeyword(st), '$');
    }
  }

  /** The keyword read and closed: replaced by what translate_keyword
      makes of it, or written as it was with its closing '$' starting a
      new keyword. */
  lemma KeywordClosed(cfg: Config, body: string, f: string, o: string, s: string, i: nat)
    requires cfg.keywords.Some? && KeywordCandidate(body) && i + |body| + 2 <= |s|
    requires s[i..i + |body| + 2] == "$" + body + "$"
    ensures var t := TranslateKeywordSpec("$" + body + "$", cfg.expand, cfg.keywords);
      var p := i + |body| + 2;
      RunFrom(cfg, Scan("", "", f, o), s, i)
        == if t.Some? then RunFrom(cfg, Scan("", "", f, o + t.value), s, p)
           else RunFrom(cfg, Scan("", "$", f, o + "$" + body), s, p)
  {
    var q := i + 1 + |body|;
    KeywordAt(body, s, i);
    KeywordOpened(cfg, f, o, s, i, q);
    assert "$" + s[i + 1..q] == "$" + body;
    RunUnfold(cfg, Scan("", "$" + body, f, o), s, q);
    KeywordCloseStep(cfg, "$" + body, f, o);
    assert o + ("$" + body) == o + "$" + body;
  }

  /** With line endings left alone, a keyword in a text that holds no
      other '$' is replaced by what translate_keyword makes of it, and
      the rest of the text is copied. */
  lemma KeywordInText(cfg: Config, a: string, body: string, b: string)
    requires cfg.eol.None? && cfg.keywords.Some?
    requires NoDollar(a) && NoDollar(b) && KeywordCandidate(body)
    ensures var w := "$" + body + "$";
      var t := TranslateKeywordSpec(w, cfg.expand, cfg.keywords);
      Translate(cfg, a + w + b) == Ok(a + (if t.Some? then t.value else w) + b)
  {
    var w := "$" + body + "$";
    var src := a + w + b;
    var p := |a| + |body| + 2;
    TextBeforeKeyword(cfg, a, w + b);
    assert src == a + (w + b);
    assert src[|a|..p] == w;
    forall k | p <= k < |src| ensures src[k] != '$' {
      assert src[k] == b[k - p];
    }
    KeywordThenRest(cfg, body, a, src, |a|);
    assert src[p..] == b;
  }

  /** A whole keyword text "$" + body + "$" as the scan reads it. */
  predicate Delimited(w: string) {
    2 <= |w| && w[0] == '$' && w[|w| - 1] == '$' && KeywordCandidate(w[1..|w| - 1])
  }

  /** KeywordInText for a keyword text given whole. */
  lemma KeywordTextInText(cfg: Config, a: string, w: string, b: string)
    requires cfg.eol.None? && cfg.keywords.Some? && NoDollar(a) && NoDollar(b) && Delimited(w)
    ensures var t := TranslateKeywordSpec(w, cfg.expand, cfg.keywords);
      Translate(cfg, a + w + b) == Ok(a + (if t.Some? then t.value else w) + b)
  {
    assert w == "$" + w[1..|w| - 1] + "$";
    KeywordInText(cfg, a, w[1..|w| - 1], b);
  }

  /** From the boring state: the keyword, then a rest without '$'. */
  lemma KeywordThenRest(cfg: Config, body: string, o: string, s: string, i: nat)
    requires cfg.eol.None? && cfg.keywords.Some? && KeywordCandidate(body) && i + |body| + 2 <= |s|
    requires s[i..i + |body| + 2] == "$" + body + "$"
    requires forall k :: i + |body| + 2 <= k < |s| ==> s[k] != '$'
    ensures var w := "$" + body + "$";
      var t := TranslateKeywordSpec(w, cfg.expand, cfg.keywords);
      Finish(cfg, RunFrom(cfg, Scan("", "", "", o), s, i))
        == Ok(o + (if t.Some? then t.value else w) + s[i + |body| + 2..])
  {
    var w := "$" + body + "$";
    var t := TranslateKeywordSpec(w, cfg.expand, cfg.keywords);
    var p := i + |body| + 2;
    KeywordClosed(cfg, body, "", o, s, i);
    if t.Some? {
      BoringTail(cfg, Scan("", "", "", o + t.value), s, p);
    } else {
      UnclosedKeywordFlushed(cfg, "$", "", o + "$" + body, s, p);
      assert o + "$" + body + "$" + s[p..] == o + w + s[p..];
    }
  }

  /** The text before the first '$' is copied as it is. */
  lemma TextBeforeKeyword(cfg: Config, a: string, rest: string)
    requires cfg.eol.None? && NoDollar(a)
    ensures RunFrom(cfg, Start, a + rest, 0) == RunFrom(cfg, Scan("", "", "", a), a + rest, |a|)
  {
    var src := a + rest;
    forall k | 0 <= k < |a| ensures !Interesting(cfg, src[k]) {
      assert src[k] == a[k];
    }
    BoringRunCopied(cfg, Start, src, 0, |a|);
    assert src[0..|a|] == a;
    assert Start.(out := Start.out + src[0..|a|]) == Scan("", "", "", a);
  }

  /** Two bodies joined are a body when they fit together. */
  lemma CandidateJoin(x: string, y: string)
    requires KeywordCandidate(x) && KeywordCandidate(y) && |x| + |y| + 2 <= KeywordMaxLen
    ensures KeywordCandidate(x + y)
  {
    forall k | 0 <= k < |x + y| ensures (x + y)[k] != '$' && (x + y)[k] != '\r' && (x + y)[k] != '\n' {
      if k < |x| {
        assert (x + y)[k] == x[k];
      } else {
        assert (x + y)[k] == y[k - |x|];
      }
    }
  }

  /** strncpy keeps a body a body: it copies or writes NUL. */
  lemma StrncpyCandidate(v: string, n: nat)
    requires n <= |v| && KeywordCandidate(v)
    ensures KeywordCandidate(Strncpy(v, n))
  {
    StrncpyChars(v, n);
  }

  /** "$keyword: value $" is again something the scan reads as a keyword. */
  lemma ExpandedIsCandidate(kw: string, v: string, cap: nat)
    requires |kw| + 5 + cap <= KeywordMaxLen && KeywordCandidate(kw) && KeywordCandidate(v)
    ensures Delimited(ExpandedText(kw, v, cap))
  {
    var e := ExpandedText(kw, v, cap);
    CandidateJoin(kw, ": ");
    if |v| == 0 {
      var body := kw + ": ";
      assert e == "$" + body + "$";
      assert e[1..|e| - 1] == body;
    } else {
      var sv := Strncpy(v, Min(|v|, cap));
      StrncpyCandidate(v, Min(|v|, cap));
      CandidateJoin(kw + ": ", sv);
      CandidateJoin(kw + ": " + sv, " ");
      var body := kw + ": " + sv + " ";
      assert e == "$" + body + "$";
      assert e[1..|e| - 1] == body;
    }
  }

  /** translate_keyword expands "$keyword$" to "$keyword: value $" and
      contracts that back to "$keyword$". */
  lemma ExpandedByName(m: map<string, string>, kw: string)
    requires kw in m && NulFree(kw) && |kw| <= KeywordMaxLen - 5 && forall k :: 0 <= k < |kw| ==> kw[k] != ':'
    ensures var w := "$" + kw + "$";
      var et := ExpandedText(kw, m[kw], KeywordMaxLen - 5 - |kw|);
      && IsKeywordText(et) && 2 <= |et|
      && TranslateKeywordSpec(w, true, Some(m)) == Some(et)
      && TranslateKeywordSpec(et, false, Some(m)) == Some(w)
  {
    TranslateRoundTrip(kw, m);
    ExpandUnexpanded(kw, m[kw]);
  }

  /** The conditions under which a keyword "$keyword$" in a text
      survives a round trip through the stream. */
  predicate RoundTripText(cfg: Config, a: string, kw: string, b: string) {
    && cfg.eol.None? && cfg.keywords.Some? && kw in cfg.keywords.value
    && NoDollar(a) && NoDollar(b) && KeywordCandidate(kw) && KeywordCandidate(cfg.keywords.value[kw])
    && NulFree(kw) && |kw| <= KeywordMaxLen - 5 && (forall k :: 0 <= k < |kw| ==> kw[k] != ':')
  }

  /** Expanding through the stream writes "$keyword: value $" in place. */
  lemma StreamExpands(cfg: Config, a: string, kw: string, b: string)
    requires RoundTripText(cfg, a, kw, b)
    ensures var et := ExpandedText(kw, cfg.keywords.value[kw], KeywordMaxLen - 5 - |kw|);
      Translate(cfg.(expand := true), a + ("$" + kw + "$") + b) == Ok(a + et + b)
  {
    ExpandedByName(cfg.keywords.value, kw);
    KeywordInText(cfg.(expand := true), a, kw, b);
  }

  /** Contracting through the stream turns "$keyword: value $" back into
      "$keyword$". */
  lemma StreamContracts(cfg: Config, a: string, kw: string, b: string)
    requires RoundTripText(cfg, a, kw, b)
    ensures var et := ExpandedText(kw, cfg.keywords.value[kw], KeywordMaxLen - 5 - |kw|);
      Translate(cfg.(expand := false), a + et + b) == Ok(a + ("$" + kw + "$") + b)
  {
    var m := cfg.keywords.value;
    var cap := KeywordMaxLen - 5 - |kw|;
    var et := ExpandedText(kw, m[kw], cap);
    var c := cfg.(expand := false);
    assert c.eol.None? && c.keywords == Some(m) && !c.expand;
    Contractible(m, kw);
    ContractInText(c, m, a, et, "$" + kw + "$", b);
  }

  /** "$keyword: value $" is a keyword the scan reads whole, and
      translate_keyword contracts it to "$keyword$". */
  lemma Contractible(m: map<string, string>, kw: string)
    requires kw in m && NulFree(kw) && |kw| <= KeywordMaxLen - 5 && forall k :: 0 <= k < |kw| ==> kw[k] != ':'
    requires KeywordCandidate(kw) && KeywordCandidate(m[kw])
    ensures var et := ExpandedText(kw, m[kw], KeywordMaxLen - 5 - |kw|);
      Delimited(et) && TranslateKeywordSpec(et, false, Some(m)) == Some("$" + kw + "$")
  {
    ExpandedByName(m, kw);
    ExpandedIsCandidate(kw, m[kw], KeywordMaxLen - 5 - |kw|);
  }

  /** A keyword text that translate_keyword turns into w, in a text with
      no other '$', comes out as w. */
  lemma ContractInText(cfg: Config, m: map<string, string>, a: string, et: string, w: string, b: string)
    requires cfg.eol.None? && cfg.keywords == Some(m) && !cfg.expand && NoDollar(a) && NoDollar(b)
    requires Delimited(et)
    requires TranslateKeywordSpec(et, false, Some(m)) == Some(w)
    ensures Translate(cfg, a + et + b) == Ok(a + w + b)
  {
    KeywordTextInText(cfg, a, et, b);
  }

  /** A keyword expanded by the stream and the result contracted by the
      stream gives the text back, when the value holds no '$', CR or LF. */
  lemma StreamExpandThenContract(cfg: Config, a: string, kw: string, b: string)
    requires RoundTripText(cfg, a, kw, b)
    ensures var src := a + ("$" + kw + "$") + b;
      var e := Translate(cfg.(expand := true), src);
      && e.Ok?
      && Translate(cfg.(expand := false), e.value) == Ok(src)
  {
    StreamExpands(cfg, a, kw, b);
    StreamContracts(cfg, a, kw, b);
  }

  // ---------------------------------------------------------------------
  // Line endings, with keywords left alone
  // ---------------------------------------------------------------------

  /** The line endings of t in order, "\r\n" read as one. */
  function Endings(t: string): seq<string>
    decreases |t|
  {
    if t == [] then []
    else if t[0] == '\r' && |t| >= 2 && t[1] == '\n' then ["\r\n"] + Endings(t[2..])
    else if t[0] == '\r' then ["\r"] + Endings(t[1..])
    else if t[0] == '\n' then ["\n"] + Endings(t[1..])
    else Endings(t[1..])
  }

  /** t with each of its line endings replaced by eol. */
  function Normalize(t: string, eol: string): string
    decreases |t|
  {
    if t == [] then []
    else if t[0] == '\r' && |t| >= 2 && t[1] == '\n' then eol + Normalize(t[2..], eol)
    else if t[0] == '\r' || t[0] == '\n' then eol + Normalize(t[1..], eol)
    else [t[0]] + Normalize(t[1..], eol)
  }

  /** Every ending is the first one met, or the one already seen when
      first is not empty. */
  predicate ConsistentWith(first: string, ends: seq<string>) {
    forall k :: 0 <= k < |ends| ==> ends[k] == (if first != "" then first else ends[0])
  }

  /** The cache of translate_newline, one ending at a time. */
  lemma ConsistentCons(first: string, x: string, rest: seq<string>)
    requires x != ""
    ensures ConsistentWith(first, [x] + rest)
        <==> (first == "" || first == x) && ConsistentWith(if first == "" then x else first, rest)
  {
    var ends := [x] + rest;
    var g := if first == "" then x else first;
    assert ends[0] == x;
    if ConsistentWith(first, ends) {
      forall k | 0 <= k < |rest| ensures rest[k] == g {
        assert rest[k] == ends[k + 1];
      }
    }
    if (first == "" || first == x) && ConsistentWith(g, rest) {
      assert (if first != "" then first else ends[0]) == g;
      forall k | 0 <= k < |ends| ensures ends[k] == g {
        if k > 0 {
          assert ends[k] == rest[k - 1];
        }
      }
    }
  }

  /** What is left of the text once the scan has read a line ending nl
      and Finish or the next characters settle it. */
  function EolOutcome(cfg: Config, f: string, o: string, t: string): Result<string, StreamError>
    requires cfg.eol.Some?
  {
    if cfg.repair || ConsistentWith(f, Endings(t)) then Ok(o + Normalize(t, cfg.eol.value))
    else Err(InconsistentEol)
  }

  /** One line ending nl at the front of t, then the rest u. */
  lemma EndingStep(cfg: Config, f: string, o: string, nl: string, t: string, u: string)
    requires cfg.eol.Some? && nl in {"\r", "\n", "\r\n"}
    requires Endings(t) == [nl] + Endings(u) && Normalize(t, cfg.eol.value) == cfg.eol.value + Normalize(u, cfg.eol.value)
    ensures var nf := TranslateNewline(f, nl, cfg.repair);
      EolOutcome(cfg, f, o, t)
        == if nf.Err? then Err(InconsistentEol) else EolOutcome(cfg, nf.value, o + cfg.eol.value, u)
  {
    ConsistentCons(f, nl, Endings(u));
    assert o + cfg.eol.value + Normalize(u, cfg.eol.value) == o + (cfg.eol.value + Normalize(u, cfg.eol.value));
  }

  /** The scan over the rest of s, with a CR perhaps waiting, ends as the
      reference rewrite of what is left says. */
  lemma {:induction false} EolRun(cfg: Config, nl: string, f: string, o: string, s: string, i: nat)
    requires cfg.eol.Some? && NoKeywordFrom(cfg, s, i)
    requires ValidScan(Scan(nl, "", f, o)) && i <= |s|
    ensures Finish(cfg, RunFrom(cfg, Scan(nl, "", f, o), s, i)) == EolOutcome(cfg, f, o, nl + s[i..])
    decreases |s| - i, |nl|, 1
  {
    if i == |s| {
      EolEnd(cfg, nl, f, o, s, i);
    } else if nl == "" {
      EolRunBoring(cfg, f, o, s, i);
      assert "" + s[i..] == s[i..];
    } else {
      EolRunCR(cfg, f, o, s, i);
    }
  }

  /** The end of the text, with a CR perhaps waiting. */
  lemma EolEnd(cfg: Config, nl: string, f: string, o: string, s: string, i: nat)
    requires cfg.eol.Some? && NoKeywordFrom(cfg, s, i)
    requires ValidScan(Scan(nl, "", f, o)) && i == |s|
    ensures Finish(cfg, RunFrom(cfg, Scan(nl, "", f, o), s, i)) == EolOutcome(cfg, f, o, nl + s[i..])
  {
    var e := cfg.eol.value;
    var t := nl + s[i..];
    assert s[i..] == [];
    if nl == "" {
      assert t == [];
      assert o + "" == o && o + [] == o;
    } else {
      assert t == "\r";
      assert Endings(t) == ["\r"] + Endings([]);
      assert Normalize(t, e) == e + Normalize([], e);
      EndingStep(cfg, f, o, "\r", t, []);
      assert o + e + "" == o + e;
    }
  }

  /** EolRun from the boring state, at a character. */
  lemma {:induction false} EolRunBoring(cfg: Config, f: string, o: string, s: string, i: nat)
    requires cfg.eol.Some? && NoKeywordFrom(cfg, s, i)
    requires ValidScan(Scan("", "", f, o)) && i < |s|
    ensures Finish(cfg, RunFrom(cfg, Scan("", "", f, o), s, i)) == EolOutcome(cfg, f, o, s[i..])
    decreases |s| - i, 0, 0
  {
    var e := cfg.eol.value;
    var st := Scan("", "", f, o);
    var t := s[i..];
    var c := s[i];
    var u := s[i + 1..];
    assert t == [c] + u;
    RunUnfold(cfg, st, s, i);
    if c == '\r' {
      assert Step(cfg, st, c) == Scan("\r", "", f, o);
      EolRun(cfg, "\r", f, o, s, i + 1);
      assert "\r" + u == t;
    } else if c == '\n' {
      assert Endings(t) == ["\n"] + Endings(u);
      assert Normalize(t, e) == e + Normalize(u, e);
      EndingStep(cfg, f, o, "\n", t, u);
      var nf := TranslateNewline(f, "\n", cfg.repair);
      if nf.Err? {
        FailedStays(cfg, s, i + 1);
      } else {
        EolRun(cfg, "", nf.value, o + e, s, i + 1);
        assert "" + u == u;
      }
    } else {
      assert !Interesting(cfg, c);
      assert Step(cfg, st, c) == Scan("", "", f, o + [c]);
      assert Endings(t) == Endings(u);
      assert Normalize(t, e) == [c] + Normalize(u, e);
      EolRun(cfg, "", f, o + [c], s, i + 1);
      assert "" + u == u;
      assert o + [c] + Normalize(u, e) == o + ([c] + Normalize(u, e));
    }
  }

  /** EolRun with a CR waiting, at a character. */
  lemma {:induction false} EolRunCR(cfg: Config, f: string, o: string, s: string, i: nat)
    requires cfg.eol.Some? && NoKeywordFrom(cfg, s, i)
    requires ValidScan(Scan("\r", "", f, o)) && i < |s|
    ensures Finish(cfg, RunFrom(cfg, Scan("\r", "", f, o), s, i)) == EolOutcome(cfg, f, o, "\r" + s[i..])
    decreases |s| - i, 1, 0
  {
    var e := cfg.eol.value;
    var st := Scan("\r", "", f, o);
    var t := "\r" + s[i..];
    var c := s[i];
    var u := s[i + 1..];
    assert s[i..] == [c] + u;
    RunUnfold(cfg, st, s, i);
    if c == '\n' {
      assert t[0] == '\r' && t[1] == '\n' && t[2..] == u;
      assert Endings(t) == ["\r\n"] + Endings(u);
      assert Normalize(t, e) == e + Normalize(u, e);
      EndingStep(cfg, f, o, "\r\n", t, u);
      var nf := TranslateNewline(f, "\r\n", cfg.repair);
      assert "\r" + "\n" == "\r\n";
      if nf.Err? {
        FailedStays(cfg, s, i + 1);
      } else {
        EolRun(cfg, "", nf.value, o + e, s, i + 1);
        assert "" + u == u;
      }
    } else {
      assert t[1..] == s[i..];
      assert Endings(t) == ["\r"] + Endings(s[i..]);
      assert Normalize(t, e) == e + Normalize(s[i..], e);
      EndingStep(cfg, f, o, "\r", t, s[i..]);
      var nf := TranslateNewline(f, "\r", cfg.repair);
      if nf.Err? {
        FailedStays(cfg, s, i + 1);
      } else {
        var st1 := Scan("", "", nf.value, o + e);
        assert EmitNewline(cfg, st, "\r") == st1;
        assert Step(cfg, st, c) == Boring(cfg, st1, c);
        SettledStep(cfg, st1, c);
        RunUnfold(cfg, st1, s, i);
        EolRun(cfg, "", nf.value, o + e, s, i);
        assert "" + s[i..] == s[i..];
      }
    }
  }

  /** No '$' from position i on, unless keywords are left alone: the scan
      then never starts a keyword. */
  predicate NoKeywordFrom(cfg: Config, s: string, i: nat) {
    cfg.keywords.None? || forall k :: i <= k < |s| ==> s[k] != '$'
  }

  /** Every line ending ("\r\n", "\r" or "\n") is written as eol_str when
      keywords are left alone or the text holds no '$'; unless repairing,
      the translation fails exactly when the text mixes two kinds of line
      ending. */
  lemma EolTranslation(cfg: Config, src: string)
    requires cfg.eol.Some? && (cfg.keywords.None? || NoDollar(src))
    ensures Translate(cfg, src)
      == if cfg.repair || ConsistentWith("", Endings(src)) then Ok(Normalize(src, cfg.eol.value))
         else Err(InconsistentEol)
  {
    EolRun(cfg, "", "", "", src, 0);
    assert "" + src[0..] == src;
    assert "" + Normalize(src, cfg.eol.value) == Normalize(src, cfg.eol.value);
  }

  /** With repair on, translate_newline never fails. */
  lemma RepairEmits(cfg: Config, st: Scan, nl: string)
    requires cfg.repair && st.Scan?
    ensures EmitNewline(cfg, st, nl).Scan?
  {
  }

  /** With repair on, one character never fails the scan. */
  lemma RepairStep(cfg: Config, st: Scan, c: char)
    requires cfg.repair && ValidScan(st) && st.Scan?
    ensures Step(cfg, st, c).Scan?
  {
    RepairEmits(cfg, st, st.newline);
    RepairEmits(cfg, st, st.newline + "\n");
    RepairEmits(cfg, st, "\n");
    if st.newline != "" && c != '\n' {
      RepairEmits(cfg, EmitNewline(cfg, st, st.newline), "\n");
    }
    if st.keyword != "" {
      RepairEmits(cfg, FlushKeyword(st), "\n");
    }
  }

  /** With repair on, the scan never fails, whatever the text. */
  lemma {:induction false} RepairRun(cfg: Config, st: Scan, s: string, i: nat)
    requires cfg.repair && ValidScan(st) && st.Scan? && i <= |s|
    ensures RunFrom(cfg, st, s, i).Scan?
    decreases |s| - i
  {
    if i < |s| {
      RunUnfold(cfg, st, s, i);
      RepairStep(cfg, st, s[i]);
      RepairRun(cfg, Step(cfg, st, s[i]), s, i + 1);
    }
  }

  /** Repairing never fails, with or without keywords; without keywords,
      or with no '$' in the text, the result is the text with every line
      ending written as eol_str. */
  lemma RepairNeverFails(cfg: Config, src: string)
    requires cfg.repair
    ensures Translate(cfg, src).Ok?
    ensures cfg.eol.Some? && (cfg.keywords.None? || NoDollar(src)) ==> Translate(cfg, src) == Ok(Normalize(src, cfg.eol.value))
  {
    RepairRun(cfg, Start, src, 0);
    var st := RunFrom(cfg, Start, src, 0);
    if st.newline != "" {
      RepairEmits(cfg, st, st.newline);
    }
    if cfg.eol.Some? && (cfg.keywords.None? || NoDollar(src)) {
      EolTranslation(cfg, src);
    }
  }

  /** With eol_str given, a keyword that is never closed is written as it
      was read, flushed at a line ending, at SVN_KEYWORD_MAX_LEN - 1
      characters or at the end, and the rest of the text then has its
      line endings translated. */
  lemma {:induction false} UnclosedKeywordAtEol(cfg: Config, kw: string, f: string, o: string, s: string, i: nat)
    requires cfg.eol.Some? && ValidScan(Scan("", kw, f, o)) && kw != "" && i <= |s|
    requires forall k :: i <= k < |s| ==> s[k] != '$'
    ensures Finish(cfg, RunFrom(cfg, Scan("", kw, f, o), s, i)) == EolOutcome(cfg, f, o + kw, s[i..])
    decreases |s| - i
  {
    var e := cfg.eol.value;
    var st := Scan("", kw, f, o);
    if i == |s| {
      assert s[i..] == [];
      assert Endings([]) == [] && Normalize([], e) == [];
      assert o + kw + [] == o + kw;
    } else {
      var c := s[i];
      var u := s[i + 1..];
      assert s[i..] == [c] + u;
      RunUnfold(cfg, st, s, i);
      if |kw| == KeywordMaxLen - 1 || c == '\r' || c == '\n' {
        var st1 := Scan("", "", f, o + kw);
        assert Step(cfg, st, c) == Boring(cfg, st1, c);
        SettledStep(cfg, st1, c);
        RunUnfold(cfg, st1, s, i);
        EolRun(cfg, "", f, o + kw, s, i);
        assert "" + s[i..] == s[i..];
      } else {
        assert Step(cfg, st, c) == Scan("", kw + [c], f, o);
        UnclosedKeywordAtEol(cfg, kw + [c], f, o, s, i + 1);
        assert Endings(s[i..]) == Endings(u);
        assert Normalize(s[i..], e) == [c] + Normalize(u, e);
        assert o + (kw + [c]) + Normalize(u, e) == o + kw + ([c] + Normalize(u, e));
      }
    }
  }
}
