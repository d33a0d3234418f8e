/** The keyword buffer of subversion/libsvn_subr/subst.c: recognising a
    "$Keyword...$" string and expanding or contracting it in place
    (translate_keyword_subst, translate_keyword). */
module SubstBuffer {
  import opened Common
  import opened SubstKeywords

  // ---------------------------------------------------------------------
  // C string helpers
  // ---------------------------------------------------------------------

  /** The C string a char buffer holds: everything before its first NUL. */
  function CPrefix(s: string): (r: string)
    ensures NulFree(r) && r <= s
    ensures |r| < |s| ==> s[|r|] == NUL
  {
    if s == [] || s[0] == NUL then [] else [s[0]] + CPrefix(s[1..])
  }

  /** strncpy(dst, v, n): the first n characters of v up to its first NUL,
      the rest of the n filled with NULs. */
  function Strncpy(v: string, n: nat): (r: string)
    requires n <= |v|
    ensures |r| == n
  {
    if n == 0 then []
    else if v[0] == NUL then seq(n, _ => NUL)
    else [v[0]] + Strncpy(v[1..], n - 1)
  }

  /** What strncpy writes at i: the character of v when it comes before
      v's first NUL, a NUL from there on. */
  lemma {:induction false} StrncpyAt(v: string, n: nat, i: nat)
    requires i < n <= |v|
    ensures Strncpy(v, n)[i] == if i < |CPrefix(v)| then v[i] else NUL
    decreases i
  {
    if v[0] != NUL && i > 0 {
      StrncpyAt(v[1..], n - 1, i - 1);
      assert Strncpy(v, n)[i] == Strncpy(v[1..], n - 1)[i - 1];
      assert CPrefix(v) == [v[0]] + CPrefix(v[1..]);
    }
  }

  /** What strncpy writes: the characters of v before its first NUL, and
      NULs from there on. */
  lemma StrncpyChars(v: string, n: nat)
    requires n <= |v|
    ensures forall i :: 0 <= i < n ==> Strncpy(v, n)[i] == if i < |CPrefix(v)| then v[i] else NUL
  {
    forall i | 0 <= i < n ensures Strncpy(v, n)[i] == if i < |CPrefix(v)| then v[i] else NUL {
      StrncpyAt(v, n, i);
    }
  }

  /** Copying a value without NULs copies it. */
  lemma {:induction false} StrncpyNulFree(v: string, n: nat)
    requires n <= |v| && NulFree(v[..n])
    ensures Strncpy(v, n) == v[..n]
  {
    if n > 0 {
      assert v[0] == v[..n][0];
      assert v[1..][..n - 1] == v[..n][1..];
      StrncpyNulFree(v[1..], n - 1);
      assert v[..n] == [v[0]] + v[1..][..n - 1];
    }
  }

  function Min(a: nat, b: nat): nat {
    if a <= b then a else b
  }

  function Spaces(n: nat): (r: string)
    ensures |r| == n && forall i :: 0 <= i < n ==> r[i] == ' '
  {
    seq(n, _ => ' ')
  }

  predicate NoDollar(s: string) {
    forall i :: 0 <= i < |s| ==> s[i] != '$'
  }

  /** `while (*buf_ptr != '$') *(buf_ptr++) = ' ';` on the text from
      buf_ptr on, which ends with a '$'. */
  function Pad(t: string): (r: string)
    requires |t| > 0 && t[|t| - 1] == '$'
    ensures |r| == |t|
  {
    if t[0] == '$' then t else [' '] + Pad(t[1..])
  }

  /** The padding blanks up to the first '$' and keeps the rest. */
  lemma {:induction false} PadUpTo(t: string, k: nat)
    requires k < |t| && t[|t| - 1] == '$' && t[k] == '$'
    requires forall i :: 0 <= i < k ==> t[i] != '$'
    ensures Pad(t) == Spaces(k) + t[k..]
  {
    if k > 0 {
      assert t[1..][k - 1] == t[k];
      forall i | 0 <= i < k - 1 ensures t[1..][i] != '$' {
        assert t[1..][i] == t[i + 1];
      }
      PadUpTo(t[1..], k - 1);
      assert t[1..][k - 1..] == t[k..];
      assert Spaces(k) == [' '] + Spaces(k - 1);
      AppendAssoc([' '], Spaces(k - 1), t[k..]);
    }
  }

  /** The padding from q0 stops at the first '$', at q. */
  lemma PadStopsAt(s: string, q0: nat, q: nat)
    requires q0 <= q < |s| && s[|s| - 1] == '$' && s[q] == '$'
    requires forall i :: q0 <= i < q ==> s[i] != '$'
    ensures Pad(s[q0..]) == Spaces(q - q0) + s[q..]
  {
    var t := s[q0..];
    forall i | 0 <= i < q - q0 ensures t[i] != '$' {
      assert t[i] == s[q0 + i];
    }
    PadUpTo(t, q - q0);
    assert t[q - q0..] == s[q..];
  }

  /** A text blanked from q0 up to q and otherwise as s. */
  lemma BlankedBetween(s: string, b: string, q0: nat, q: nat)
    requires q0 <= q <= |s| == |b|
    requires forall i :: 0 <= i < q0 ==> b[i] == s[i]
    requires forall i :: q <= i < |s| ==> b[i] == s[i]
    requires forall i :: q0 <= i < q ==> b[i] == ' '
    ensures b == s[..q0] + (Spaces(q - q0) + s[q..])
  {
    var r := s[..q0] + (Spaces(q - q0) + s[q..]);
    forall i | 0 <= i < |s| ensures b[i] == r[i] {
      if q0 <= i < q {
        assert r[i] == Spaces(q - q0)[i - q0];
      } else if q <= i {
        assert r[i] == s[q..][i - q];
      }
    }
  }

  /** What the padding loop leaves when it stops at the '$' at q: blanks
      from q0 up to q and the rest as it was. */
  lemma PadLoopDone(s: string, b: string, q0: nat, q: nat)
    requires q0 <= q < |s| == |b| && s[|s| - 1] == '$' && s[q] == '$'
    requires forall i :: 0 <= i < q0 ==> b[i] == s[i]
    requires forall i :: q <= i < |s| ==> b[i] == s[i]
    requires forall i :: q0 <= i < q ==> b[i] == ' ' && s[i] != '$'
    ensures b == s[..q0] + Pad(s[q0..])
  {
    PadStopsAt(s, q0, q);
    BlankedBetween(s, b, q0, q);
  }

  /** The padding loop started at p. */
  function PadToDollar(s: string, p: nat): (r: string)
    requires p < |s| && s[|s| - 1] == '$'
    ensures |r| == |s|
  {
    s[..p] + Pad(s[p..])
  }

  /** The padding writes only blanks and stops at a '$', so the closing
      '$' stays. */
  lemma {:induction false} PadChars(t: string)
    requires |t| > 0 && t[|t| - 1] == '$'
    ensures Pad(t)[|t| - 1] == '$'
    ensures forall i :: 0 <= i < |t| ==> Pad(t)[i] == ' ' || Pad(t)[i] == t[i]
  {
    if t[0] != '$' {
      PadChars(t[1..]);
      forall i | 0 < i < |t| ensures Pad(t)[i] == ' ' || Pad(t)[i] == t[i] {
        assert Pad(t)[i] == Pad(t[1..])[i - 1];
      }
    }
  }

  // ---------------------------------------------------------------------
  // translate_keyword_subst
  // ---------------------------------------------------------------------

  /** A keyword string: '$' first and last, within SVN_KEYWORD_MAX_LEN. */
  predicate IsKeywordText(s: string) {
    1 <= |s| <= KeywordMaxLen && s[0] == '$' && s[|s| - 1] == '$'
  }

  /** "$keyword:: ... $" or "$keyword:: ...#$", long enough for one value
      character between the spaces. */
  predicate IsFixedForm(s: string, n: nat)
    requires IsKeywordText(s) && n + 2 <= |s|
  {
    && s[n + 1] == ':' && s[n + 2] == ':' && s[n + 3] == ' '
    && (s[|s| - 2] == ' ' || s[|s| - 2] == '#')
    && 6 + n < |s|
  }

  /** "$keyword$" or "$keyword:$" */
  predicate IsUnexpandedForm(s: string, n: nat)
    requires IsKeywordText(s) && n + 2 <= |s|
  {
    s[n + 1] == '$' || (s[n + 1] == ':' && s[n + 2] == '$')
  }

  /** "$keyword: ... $", at least "$keyword: $" */
  predicate IsExpandedForm(s: string, n: nat)
    requires IsKeywordText(s) && n + 2 <= |s|
  {
    |s| >= 4 + n && s[n + 1] == ':' && s[n + 2] == ' ' && s[|s| - 2] == ' '
  }

  /** The expanded keyword "$keyword: value $" with the value cut to at
      most cap characters, or "$keyword: $" for an empty value. */
  function ExpandedText(kw: string, v: string, cap: nat): string {
    if |v| == 0 then "$" + kw + ": $"
    else "$" + kw + ": " + Strncpy(v, Min(|v|, cap)) + " $"
  }

  /** A value that fits written over a fixed-length keyword after
      "$keyword:: ", the rest of the keyword kept. */
  function FillText(s: string, n: nat, v: string): (f: string)
    requires IsKeywordText(s) && n + 6 + |v| <= |s|
    ensures |f| == |s| && f[..n + 4] == s[..n + 4] && f[n + 4 + |v|..] == s[n + 4 + |v|..]
    ensures f[|s| - 2] == s[|s| - 2] && f[|s| - 1] == '$'
  {
    var f := s[..n + 4] + Strncpy(v, |v|) + s[n + 4 + |v|..];
    assert f[n + 4 + |v|..] == s[n + 4 + |v|..];
    assert f[|s| - 2] == s[n + 4 + |v|..][|s| - 2 - (n + 4 + |v|)];
    assert f[|s| - 1] == s[n + 4 + |v|..][|s| - 1 - (n + 4 + |v|)];
    f
  }

  /** A fixed-length keyword keeps its length: contracted to blanks up to
      the closing '$', or filled with the value and blanks, or with the
      value cut and marked by '#' before the closing '$'. */
  function FixedSubst(s: string, n: nat, value: Option<string>): string
    requires IsKeywordText(s) && n + 2 <= |s| && IsFixedForm(s, n)
  {
    var maxValue := |s| - (6 + n);
    if value.None? then PadToDollar(s, n + 3)
    else if |value.value| <= maxValue then PadToDollar(FillText(s, n, value.value), n + 4 + |value.value|)
    else s[..n + 4] + Strncpy(value.value, maxValue) + "#$"
  }

  /** The rules of translate_keyword_subst, with the expanded value cut to
      at most cap characters; None is FALSE (nothing written). */
  function SubstRule(s: string, kw: string, value: Option<string>, cap: nat): Option<string>
    requires IsKeywordText(s) && NulFree(kw)
  {
    var n := |kw|;
    if |s| < n + 2 || s[1..n + 1] != kw then None
    else if IsFixedForm(s, n) then Some(FixedSubst(s, n, value))
    else if IsUnexpandedForm(s, n) then
      if value.None? then Some(s) else Some(ExpandedText(kw, value.value, cap))
    else if IsExpandedForm(s, n) then
      if value.None? then Some("$" + kw + "$") else Some(ExpandedText(kw, value.value, cap))
    else None
  }

  /** translate_keyword_subst as written: the value of an expansion is cut
      to SVN_KEYWORD_MAX_LEN - 5 characters whatever the keyword's length. */
  function SubstAsWritten(s: string, kw: string, value: Option<string>): Option<string>
    requires IsKeywordText(s) && NulFree(kw)
  {
    SubstRule(s, kw, value, KeywordMaxLen - 5)
  }

  /** translate_keyword_subst with room for the keyword: a keyword longer
      than SVN_KEYWORD_MAX_LEN - 5 is refused and the value is cut so that
      "$keyword: value $" fits SVN_KEYWORD_MAX_LEN. */
  function Subst(s: string, kw: string, value: Option<string>): Option<string>
    requires IsKeywordText(s) && NulFree(kw)
  {
    if |kw| > KeywordMaxLen - 5 then None
    else SubstRule(s, kw, value, KeywordMaxLen - 5 - |kw|)
  }

  // ---------------------------------------------------------------------
  // translate_keyword
  // ---------------------------------------------------------------------

  /** The end of the keyword name in "$name...$": the first ':' after the
      leading '$', but never into the closing '$'. */
  function NameEnd(s: string, i: nat): (e: nat)
    requires 2 <= |s| && i <= |s| - 2
    ensures i <= e <= |s| - 2
    ensures forall j :: i + 1 <= j < e + 1 ==> s[j] != ':'
    ensures e < |s| - 2 ==> s[e + 1] == ':'
    decreases |s| - i
  {
    if i == |s| - 2 || s[i + 1] == ':' then i else NameEnd(s, i + 1)
  }

  /** The name translate_keyword looks up: keyword_name as a C string. */
  function KeywordName(s: string): string
    requires 2 <= |s|
  {
    CPrefix(s[1..NameEnd(s, 0) + 1])
  }

  /** translate_keyword: no keyword map or an unknown name is FALSE;
      otherwise the known keyword is expanded with its value or contracted. */
  function TranslateKeywordSpec(s: string, expand: bool, keywords: Option<map<string, string>>): Option<string>
    requires IsKeywordText(s) && 2 <= |s|
  {
    if keywords.None? then None
    else
      var name := KeywordName(s);
      if name !in keywords.value then None
      else Subst(s, name, if expand then Some(keywords.value[name]) else None)
  }

  // ---------------------------------------------------------------------
  // What translate_keyword_subst and translate_keyword promise
  // ---------------------------------------------------------------------

  /** The padding keeps what comes before p, the length and the closing
      '$', and puts only blanks in between. */
  lemma PadKeeps(s: string, p: nat)
    requires p < |s| && s[|s| - 1] == '$'
    ensures var r := PadToDollar(s, p);
      && |r| == |s| && r[..p] == s[..p] && r[|r| - 1] == '$'
      && forall i :: p <= i < |s| ==> r[i] == ' ' || r[i] == s[i]
  {
    var r := PadToDollar(s, p);
    PadChars(s[p..]);
    assert r[..p] == s[..p];
    forall i | p <= i < |s| ensures r[i] == ' ' || r[i] == s[i] {
      assert r[i] == Pad(s[p..])[i - p];
    }
  }

  /** Text with the head "$keyword:: " of a fixed-length keyword, its
      length, a closing '$' and a blank or '#' before it is one too. */
  lemma SameFixedShape(s: string, r: string, n: nat)
    requires IsKeywordText(s) && n + 2 <= |s| && IsFixedForm(s, n)
    requires |r| == |s| && r[..n + 4] == s[..n + 4] && r[|r| - 1] == '$'
    requires r[|r| - 2] == ' ' || r[|r| - 2] == '#'
    ensures IsKeywordText(r) && IsFixedForm(r, n)
  {
    assert r[0] == r[..n + 4][0] && r[n + 1] == r[..n + 4][n + 1];
    assert r[n + 2] == r[..n + 4][n + 2] && r[n + 3] == r[..n + 4][n + 3];
  }

  /** The padding after "$keyword::" or after the value leaves the head
      "$keyword:: " as it was. */
  lemma PadKeepsHead(s: string, p: nat, n: nat)
    requires n + 3 <= p < |s| && s[|s| - 1] == '$' && s[n + 3] == ' '
    ensures PadToDollar(s, p)[..n + 4] == s[..n + 4]
  {
    var r := PadToDollar(s, p);
    PadKeeps(s, p);
    if p > n + 3 {
      assert r[..n + 4] == r[..p][..n + 4];
    } else {
      assert r[..n + 4] == r[..n + 3] + [r[n + 3]];
      assert s[..n + 4] == s[..n + 3] + [s[n + 3]];
    }
  }

  /** What the three fixed-length branches write keeps the shape. */
  predicate KeepsFixedShape(s: string, r: string, n: nat)
    requires IsKeywordText(s) && n + 2 <= |s| && IsFixedForm(s, n)
  {
    |r| == |s| && IsKeywordText(r) && r[..n + 4] == s[..n + 4] && IsFixedForm(r, n)
  }

  lemma BlankStaysFixed(s: string, n: nat)
    requires IsKeywordText(s) && n + 2 <= |s| && IsFixedForm(s, n)
    ensures KeepsFixedShape(s, PadToDollar(s, n + 3), n)
  {
    var r := PadToDollar(s, n + 3);
    PadKeeps(s, n + 3);
    PadKeepsHead(s, n + 3, n);
    assert r[|r| - 2] == ' ' || r[|r| - 2] == s[|s| - 2];
    SameFixedShape(s, r, n);
  }

  lemma FillStaysFixed(s: string, n: nat, v: string)
    requires IsKeywordText(s) && n + 2 <= |s| && IsFixedForm(s, n) && |v| <= |s| - (6 + n)
    ensures KeepsFixedShape(s, PadToDollar(FillText(s, n, v), n + 4 + |v|), n)
  {
    var f := FillText(s, n, v);
    var w := n + 4 + |v|;
    var r := PadToDollar(f, w);
    PadKeeps(f, w);
    assert f[n + 3] == f[..n + 4][n + 3];
    PadKeepsHead(f, w, n);
    assert r[|r| - 2] == ' ' || r[|r| - 2] == s[|s| - 2];
    SameFixedShape(s, r, n);
  }

  lemma CutStaysFixed(s: string, n: nat, v: string)
    requires IsKeywordText(s) && n + 2 <= |s| && IsFixedForm(s, n) && |v| > |s| - (6 + n)
    ensures KeepsFixedShape(s, s[..n + 4] + Strncpy(v, |s| - (6 + n)) + "#$", n)
  {
    var r := s[..n + 4] + Strncpy(v, |s| - (6 + n)) + "#$";
    assert r[..n + 4] == s[..n + 4];
    assert r[|r| - 2] == '#';
    SameFixedShape(s, r, n);
  }

  /** A fixed-length keyword stays a fixed-length keyword of the same
      length with the same "$keyword:: " head, whatever is done to it. */
  lemma FixedStaysFixed(s: string, n: nat, value: Option<string>)
    requires IsKeywordText(s) && n + 2 <= |s| && IsFixedForm(s, n)
    ensures var r := FixedSubst(s, n, value);
      && |r| == |s| && IsKeywordText(r) && r[..n + 4] == s[..n + 4] && IsFixedForm(r, n)
  {
    if value.None? {
      BlankStaysFixed(s, n);
    } else if |value.value| <= |s| - (6 + n) {
      FillStaysFixed(s, n, value.value);
    } else {
      CutStaysFixed(s, n, value.value);
    }
  }

  /** The expanded text is a keyword string of the expanded form, when
      the value is cut to the room the keyword leaves. */
  lemma ExpandedTextShape(kw: string, v: string, cap: nat)
    requires |kw| + 5 + cap <= KeywordMaxLen
    ensures var e := ExpandedText(kw, v, cap);
      && IsKeywordText(e) && |kw| + 4 <= |e| && e[1..|kw| + 1] == kw
      && IsExpandedForm(e, |kw|) && !IsFixedForm(e, |kw|) && !IsUnexpandedForm(e, |kw|)
  {
  }

  /** Whatever translate_keyword_subst writes is again a keyword string
      "$keyword...$" that fits keyword_buf. */
  lemma SubstFits(s: string, kw: string, value: Option<string>)
    requires IsKeywordText(s) && NulFree(kw)
    ensures var r := Subst(s, kw, value);
      r.Some? ==> IsKeywordText(r.value) && |kw| + 2 <= |r.value| && r.value[1..|kw| + 1] == kw
  {
    var n := |kw|;
    var cap := KeywordMaxLen - 5 - n;
    if Subst(s, kw, value).Some? {
      if IsFixedForm(s, n) {
        var r := FixedSubst(s, n, value);
        assert Subst(s, kw, value) == Some(r);
        FixedStaysFixed(s, n, value);
        SameHead(r, s, n);
      } else if value.Some? {
        assert Subst(s, kw, value) == Some(ExpandedText(kw, value.value, cap));
        ExpandedTextShape(kw, value.value, cap);
      } else if IsUnexpandedForm(s, n) {
        assert Subst(s, kw, value) == Some(s);
      } else {
        assert Subst(s, kw, value) == Some("$" + kw + "$");
      }
    }
  }

  /** As written, expanding "$Rev$" with a 250-character revision value
      produces 258 characters, more than keyword_buf holds; with the
      value cut to the room the keyword leaves it is 255. */
  lemma SubstAsWrittenOverflows()
    ensures var v := seq(250, _ => 'x');
      && SubstAsWritten("$Rev$", "Rev", Some(v)).Some?
      && |SubstAsWritten("$Rev$", "Rev", Some(v)).value| == 258 > KeywordMaxLen
      && |Subst("$Rev$", "Rev", Some(v)).value| == KeywordMaxLen
  {
    var v := seq(250, _ => 'x');
    var s := "$Rev$";
    assert s[1..4] == "Rev";
    assert IsUnexpandedForm(s, 3) && !IsFixedForm(s, 3);
  }

  /** An unexpanded keyword "$keyword$" expands to "$keyword: value $" with
      the whole value when it has no NUL and fits. */
  lemma ExpandValue(kw: string, v: string)
    requires NulFree(kw) && NulFree(v) && 0 < |v| && |kw| + 5 + |v| <= KeywordMaxLen
    ensures Subst("$" + kw + "$", kw, Some(v)) == Some("$" + kw + ": " + v + " $")
  {
    var s := "$" + kw + "$";
    assert s[1..|kw| + 1] == kw;
    assert IsUnexpandedForm(s, |kw|);
    assert v[..|v|] == v;
    StrncpyNulFree(v, |v|);
  }

  /** Expanding "$keyword$" writes "$keyword: value $" with the value cut
      to the room the keyword leaves in SVN_KEYWORD_MAX_LEN. */
  lemma ExpandUnexpanded(kw: string, v: string)
    requires NulFree(kw) && |kw| <= KeywordMaxLen - 5
    ensures Subst("$" + kw + "$", kw, Some(v)) == Some(ExpandedText(kw, v, KeywordMaxLen - 5 - |kw|))
  {
    var s := "$" + kw + "$";
    assert s[1..|kw| + 1] == kw;
    assert IsUnexpandedForm(s, |kw|);
  }

  /** Expanding "$keyword$" and then contracting the result gives
      "$keyword$" back, whatever the value. */
  lemma ExpandThenContract(kw: string, v: string)
    requires NulFree(kw) && |kw| <= KeywordMaxLen - 5
    ensures var e := Subst("$" + kw + "$", kw, Some(v));
      && e.Some? && IsKeywordText(e.value)
      && Subst(e.value, kw, None) == Some("$" + kw + "$")
  {
    var n := |kw|;
    var s := "$" + kw + "$";
    assert s[1..n + 1] == kw;
    assert IsUnexpandedForm(s, n);
    ExpandedTextShape(kw, v, KeywordMaxLen - 5 - n);
  }

  /** Expanding an expanded keyword forgets the old value: the result is
      what expanding "$keyword$" gives, so expanding twice with the same
      value changes nothing the second time. */
  lemma ReExpand(kw: string, v: string, w: string)
    requires NulFree(kw) && |kw| <= KeywordMaxLen - 5
    ensures var e := Subst("$" + kw + "$", kw, Some(v));
      && e.Some? && IsKeywordText(e.value)
      && Subst(e.value, kw, Some(w)) == Subst("$" + kw + "$", kw, Some(w))
    ensures var e := Subst("$" + kw + "$", kw, Some(v));
      Subst(e.value, kw, Some(v)) == e
  {
    var n := |kw|;
    var s := "$" + kw + "$";
    assert s[1..n + 1] == kw;
    assert IsUnexpandedForm(s, n);
    ExpandedTextShape(kw, v, KeywordMaxLen - 5 - n);
  }

  /** An unexpanded keyword stays as it is when contracted; so does any
      text that is not a keyword of that name. */
  lemma ContractUnexpanded(kw: string)
    requires NulFree(kw) && |kw| <= KeywordMaxLen - 5
    ensures Subst("$" + kw + "$", kw, None) == Some("$" + kw + "$")
    ensures Subst("$" + kw + ":$", kw, None) == Some("$" + kw + ":$")
  {
    var s, t := "$" + kw + "$", "$" + kw + ":$";
    assert s[1..|kw| + 1] == kw && t[1..|kw| + 1] == kw;
    assert IsUnexpandedForm(s, |kw|) && IsUnexpandedForm(t, |kw|);
  }

  /** translate_keyword_subst refuses exactly a buffer too short for the
      name, a name that does not match, or a buffer in none of the three
      forms (and, corrected, a keyword with no room for a value). */
  lemma SubstRefuses(s: string, kw: string, value: Option<string>)
    requires IsKeywordText(s) && NulFree(kw)
    ensures var n := |kw|;
      Subst(s, kw, value).None? <==>
        || n > KeywordMaxLen - 5 || |s| < n + 2 || s[1..n + 1] != kw
        || (!IsFixedForm(s, n) && !IsUnexpandedForm(s, n) && !IsExpandedForm(s, n))
  {
  }

  /** translate_keyword refuses when there is no keyword map or the name
      is not in it. */
  lemma TranslateKeywordRefuses(s: string, expand: bool, keywords: Option<map<string, string>>)
    requires IsKeywordText(s) && 2 <= |s|
    ensures keywords.None? ==> TranslateKeywordSpec(s, expand, keywords).None?
    ensures keywords.Some? && KeywordName(s) !in keywords.value ==> TranslateKeywordSpec(s, expand, keywords).None?
  {
  }

  /** Contracting a fixed-length keyword "$keyword:: ... $" without an
      inner '$' blanks everything between "::" and the closing '$'. */
  lemma FixedContract(s: string, kw: string)
    requires IsKeywordText(s) && NulFree(kw) && |kw| <= KeywordMaxLen - 5
    requires |kw| + 2 <= |s| && s[1..|kw| + 1] == kw && IsFixedForm(s, |kw|)
    requires NoDollar(s[1..|s| - 1])
    ensures Subst(s, kw, None) == Some(s[..|kw| + 3] + Spaces(|s| - |kw| - 4) + "$")
  {
    var n := |kw|;
    var t := s[n + 3..];
    forall i | 0 <= i < |t| - 1 ensures t[i] != '$' {
      assert t[i] == s[1..|s| - 1][n + 2 + i];
    }
    PadUpTo(t, |t| - 1);
    assert t[|t| - 1..] == "$";
    AppendAssoc(s[..n + 3], Spaces(|t| - 1), "$");
  }

  /** A value without NUL or '$' that fits a fixed-length keyword is
      written after "$keyword:: " and blanks fill the rest. */
  lemma FixedFill(s: string, kw: string, v: string)
    requires IsKeywordText(s) && NulFree(kw) && |kw| <= KeywordMaxLen - 5
    requires |kw| + 2 <= |s| && s[1..|kw| + 1] == kw && IsFixedForm(s, |kw|)
    requires NoDollar(s[1..|s| - 1]) && NulFree(v) && NoDollar(v) && |v| <= |s| - (6 + |kw|)
    ensures Subst(s, kw, Some(v)) == Some(s[..|kw| + 4] + v + Spaces(|s| - |kw| - 5 - |v|) + "$")
  {
    var n := |kw|;
    var w := n + 4 + |v|;
    assert v[..|v|] == v;
    StrncpyNulFree(v, |v|);
    var f := FillText(s, n, v);
    assert f == s[..n + 4] + v + s[w..];
    var t := f[w..];
    assert t == s[w..];
    forall i | 0 <= i < |t| - 1 ensures t[i] != '$' {
      assert t[i] == s[1..|s| - 1][w - 1 + i];
    }
    PadUpTo(t, |t| - 1);
    assert t[|t| - 1..] == "$";
    assert f[..w] == s[..n + 4] + v;
    AppendAssoc(f[..w], Spaces(|t| - 1), "$");
  }

  /** A value too long for a fixed-length keyword is cut to the room
      there is and marked by '#' before the closing '$'. */
  lemma FixedTruncate(s: string, kw: string, v: string)
    requires IsKeywordText(s) && NulFree(kw) && |kw| <= KeywordMaxLen - 5
    requires |kw| + 2 <= |s| && s[1..|kw| + 1] == kw && IsFixedForm(s, |kw|)
    requires |v| > |s| - (6 + |kw|) && NulFree(v[..|s| - (6 + |kw|)])
    ensures Subst(s, kw, Some(v)) == Some(s[..|kw| + 4] + v[..|s| - (6 + |kw|)] + "#$")
  {
    StrncpyNulFree(v, |s| - (6 + |kw|));
  }

  /** Filling a fixed-length keyword and contracting it again gives the
      contracted keyword, when neither the keyword nor the value holds an
      inner '$'. */
  lemma FixedRoundTrip(s: string, kw: string, v: string)
    requires IsKeywordText(s) && NulFree(kw) && |kw| <= KeywordMaxLen - 5
    requires |kw| + 2 <= |s| && s[1..|kw| + 1] == kw && IsFixedForm(s, |kw|)
    requires NoDollar(s[1..|s| - 1]) && NoDollar(v)
    ensures var e := Subst(s, kw, Some(v));
      && e.Some? && IsKeywordText(e.value)
      && Subst(e.value, kw, None) == Subst(s, kw, None)
  {
    FilledFixed(s, kw, v);
    ContractSameHead(s, FixedSubst(s, |kw|, Some(v)), kw);
  }

  /** Filling a fixed-length keyword gives a fixed-length keyword of the
      same length and head, without an inner '$' when the value has none. */
  lemma FilledFixed(s: string, kw: string, v: string)
    requires IsKeywordText(s) && NulFree(kw) && |kw| <= KeywordMaxLen - 5
    requires |kw| + 2 <= |s| && s[1..|kw| + 1] == kw && IsFixedForm(s, |kw|)
    requires NoDollar(s[1..|s| - 1]) && NoDollar(v)
    ensures var e := FixedSubst(s, |kw|, Some(v));
      && Subst(s, kw, Some(v)) == Some(e)
      && IsKeywordText(e) && |kw| + 2 <= |e| && e[1..|kw| + 1] == kw && IsFixedForm(e, |kw|)
      && NoDollar(e[1..|e| - 1]) && |e| == |s| && e[..|kw| + 3] == s[..|kw| + 3]
  {
    var n := |kw|;
    var e := FixedSubst(s, n, Some(v));
    FixedStaysFixed(s, n, Some(v));
    SameHead(e, s, n);
    ValueKeepsNoDollar(s, n, v);
  }

  /** Two fixed-length keywords of one length and one name, without an
      inner '$', contract to the same text. */
  lemma ContractSameHead(s: string, e: string, kw: string)
    requires NulFree(kw) && |kw| <= KeywordMaxLen - 5
    requires IsKeywordText(s) && |kw| + 2 <= |s| && s[1..|kw| + 1] == kw && IsFixedForm(s, |kw|)
    requires IsKeywordText(e) && |kw| + 2 <= |e| && e[1..|kw| + 1] == kw && IsFixedForm(e, |kw|)
    requires NoDollar(s[1..|s| - 1]) && NoDollar(e[1..|e| - 1])
    requires |e| == |s| && e[..|kw| + 3] == s[..|kw| + 3]
    ensures Subst(e, kw, None) == Subst(s, kw, None)
  {
    FixedContract(s, kw);
    FixedContract(e, kw);
  }

  /** Two texts with the same "$keyword:: " head have the same name and
      the same "$keyword::". */
  lemma SameHead(e: string, s: string, n: nat)
    requires n + 4 <= |e| && n + 4 <= |s| && e[..n + 4] == s[..n + 4]
    ensures e[1..n + 1] == s[1..n + 1] && e[..n + 3] == s[..n + 3]
  {
    assert e[1..n + 1] == e[..n + 4][1..n + 1];
    assert s[1..n + 1] == s[..n + 4][1..n + 1];
    assert e[..n + 3] == e[..n + 4][..n + 3];
    assert s[..n + 3] == s[..n + 4][..n + 3];
  }

  /** Strncpy adds no '$' to a value without one. */
  lemma StrncpyNoDollar(v: string, k: nat)
    requires k <= |v| && NoDollar(v)
    ensures NoDollar(Strncpy(v, k))
  {
    StrncpyChars(v, k);
  }

  /** Filling a fixed-length keyword with a value that fits and has no
      '$' leaves no inner '$'. */
  lemma FillKeepsNoDollar(s: string, n: nat, v: string)
    requires IsKeywordText(s) && n + 6 + |v| <= |s|
    requires NoDollar(s[1..|s| - 1]) && NoDollar(v)
    ensures var r := PadToDollar(FillText(s, n, v), n + 4 + |v|); NoDollar(r[1..|r| - 1])
  {
    var w := n + 4 + |v|;
    var t := Strncpy(v, |v|);
    StrncpyNoDollar(v, |v|);
    var f := FillText(s, n, v);
    assert f == s[..n + 4] + t + s[w..];
    var r := PadToDollar(f, w);
    PadKeeps(f, w);
    forall i | 1 <= i < |r| - 1 ensures r[i] != '$' {
      if i < n + 4 {
        assert r[i] == r[..w][i] == f[..w][i] == s[i] == s[1..|s| - 1][i - 1];
      } else if i < w {
        assert r[i] == r[..w][i] == f[i] == t[i - n - 4];
      } else {
        assert f[i] == s[i] == s[1..|s| - 1][i - 1];
      }
    }
    var m := r[1..|r| - 1];
    forall i | 0 <= i < |m| ensures m[i] != '$' {
      assert m[i] == r[i + 1];
    }
  }

  /** Cutting a value without '$' into a fixed-length keyword leaves no
      inner '$'. */
  lemma CutKeepsNoDollar(s: string, n: nat, v: string)
    requires IsKeywordText(s) && n + 6 <= |s| && |v| > |s| - (6 + n)
    requires NoDollar(s[1..|s| - 1]) && NoDollar(v)
    ensures var r := s[..n + 4] + Strncpy(v, |s| - (6 + n)) + "#$"; NoDollar(r[1..|r| - 1])
  {
    var maxValue := |s| - (6 + n);
    var t := Strncpy(v, maxValue);
    StrncpyNoDollar(v, maxValue);
    var r := s[..n + 4] + t + "#$";
    var m := r[1..|r| - 1];
    forall i | 0 <= i < |m| ensures m[i] != '$' {
      var k := i + 1;
      assert m[i] == r[k];
      if k < n + 4 {
        assert r[k] == s[k] == s[1..|s| - 1][k - 1];
      } else if k < n + 4 + maxValue {
        assert r[k] == t[k - n - 4];
      }
    }
  }

  /** Filling a fixed-length keyword with a value without '$' leaves no
      inner '$'. */
  lemma ValueKeepsNoDollar(s: string, n: nat, v: string)
    requires IsKeywordText(s) && n + 2 <= |s| && IsFixedForm(s, n)
    requires NoDollar(s[1..|s| - 1]) && NoDollar(v)
    ensures var e := FixedSubst(s, n, Some(v)); |e| == |s| && NoDollar(e[1..|e| - 1])
  {
    FixedStaysFixed(s, n, Some(v));
    if |v| <= |s| - (6 + n) {
      assert FixedSubst(s, n, Some(v)) == PadToDollar(FillText(s, n, v), n + 4 + |v|);
      FillKeepsNoDollar(s, n, v);
    } else {
      assert FixedSubst(s, n, Some(v)) == s[..n + 4] + Strncpy(v, |s| - (6 + n)) + "#$";
      CutKeepsNoDollar(s, n, v);
    }
  }

  /** The name read from "$keyword$" or "$keyword:...$" is the keyword,
      when it holds no ':' and no NUL. */
  lemma NameOfKeyword(kw: string, rest: string)
    requires NulFree(kw) && forall i :: 0 <= i < |kw| ==> kw[i] != ':'
    requires rest == "$" || (|rest| >= 2 && rest[0] == ':')
    ensures KeywordName("$" + kw + rest) == kw
  {
    var s := "$" + kw + rest;
    var e := NameEnd(s, 0);
    forall j | 1 <= j < |kw| + 1 ensures s[j] != ':' {
      assert s[j] == kw[j - 1];
    }
    assert s[|kw| + 1] == rest[0];
    assert e == |kw|;
    assert s[1..e + 1] == kw;
    assert CPrefix(kw) == kw;
  }

  /** translate_keyword expands "$keyword$" with the keyword's value and,
      contracting the result, gives "$keyword$" back. */
  lemma TranslateRoundTrip(kw: string, keywords: map<string, string>)
    requires kw in keywords && NulFree(kw) && |kw| <= KeywordMaxLen - 5
    requires forall i :: 0 <= i < |kw| ==> kw[i] != ':'
    ensures var s := "$" + kw + "$";
      var e := TranslateKeywordSpec(s, true, Some(keywords));
      && e == Subst(s, kw, Some(keywords[kw])) && e.Some? && IsKeywordText(e.value) && 2 <= |e.value|
      && TranslateKeywordSpec(e.value, false, Some(keywords)) == Some(s)
  {
    var s := "$" + kw + "$";
    var v := keywords[kw];
    NameOfKeyword(kw, "$");
    ExpandThenContract(kw, v);
    var e := Subst(s, kw, Some(v)).value;
    ExpandedTextShape(kw, v, KeywordMaxLen - 5 - |kw|);
    var rest := e[|kw| + 1..];
    assert e == "$" + kw + rest;
    assert rest[0] == ':' && |rest| >= 2;
    NameOfKeyword(kw, rest);
  }

  // ---------------------------------------------------------------------
  // The buffer
  // ---------------------------------------------------------------------

  /** The first len characters after writing t at position at. */
  lemma SpliceTake(a: string, at: nat, t: string, len: nat)
    requires at + |t| <= len <= |a|
    ensures (a[..at] + t + a[at + |t|..])[..len] == a[..len][..at] + t + a[..len][at + |t|..]
  {
  }

  /** What an expansion writes after "$keyword": ": value $" with the
      value cut to cap characters, or ": $" for an empty value. */
  function ExpandedTail(v: string, cap: nat): (t: string)
    ensures |t| <= cap + 4
  {
    if |v| == 0 then ": $" else ": " + Strncpy(v, Min(|v|, cap)) + " $"
  }

  /** Writing the tail after "$keyword" and cutting the buffer after it
      leaves the expanded keyword. */
  lemma ExpandWritten(a: string, n: nat, v: string, cap: nat)
    requires n + 1 + |ExpandedTail(v, cap)| <= |a| && |a| > 0 && a[0] == '$'
    ensures var t := ExpandedTail(v, cap);
      (a[..n + 1] + t + a[n + 1 + |t|..])[..n + 1 + |t|] == ExpandedText(a[1..n + 1], v, cap)
  {
    var t := ExpandedTail(v, cap);
    assert a[..n + 1] == "$" + a[1..n + 1];
    assert (a[..n + 1] + t + a[n + 1 + |t|..])[..n + 1 + |t|] == a[..n + 1] + t;
    if |v| > 0 {
      var sv := Strncpy(v, Min(|v|, cap));
      assert "$" + a[1..n + 1] + ": " + sv + " $" == "$" + a[1..n + 1] + (": " + sv + " $");
    }
  }

  /** keyword_buf and keyword_off of translate_stream3. */
  class KeywordBuffer {
    var buf: array<char>
    var len: nat

    predicate Valid()
      reads this
    {
      buf.Length == KeywordMaxLen && len <= KeywordMaxLen
    }

    function Contents(): string
      reads this, buf
      requires Valid()
    {
      buf[..len]
    }

    /** `char keyword_buf[SVN_KEYWORD_MAX_LEN] = { 0 }; keyword_off = 0;` */
    constructor()
      ensures Valid() && Contents() == [] && fresh(buf)
    {
      buf := new char[KeywordMaxLen](_ => NUL);
      len := 0;
    }

    /** `keyword_buf[keyword_off++] = c` */
    method Push(c: char)
      requires Valid() && len < KeywordMaxLen
      modifies this, buf
      ensures Valid() && buf == old(buf)
      ensures Contents() == old(Contents()) + [c]
    {
      buf[len] := c;
      len := len + 1;
    }

    /** `keyword_off--` */
    method Drop()
      requires Valid() && len > 0
      modifies this
      ensures Valid() && buf == old(buf) && Contents() == old(Contents())[..old(len) - 1]
    {
      len := len - 1;
    }

    /** `keyword_off = 0` */
    method Clear()
      requires Valid()
      modifies this
      ensures Valid() && buf == old(buf) && Contents() == []
    {
      len := 0;
    }

    /** Writes t over the buffer from position at on. */
    method WriteAt(at: nat, t: string)
      requires Valid() && at + |t| <= buf.Length
      modifies buf
      ensures buf[..] == old(buf[..at]) + t + old(buf[at + |t|..])
    {
      forall i | at <= i < at + |t| {
        buf[i] := t[i - at];
      }
    }

    /** Blanks from q0 up to the next '$' of the keyword string. */
    method PadFrom(q0: nat)
      requires Valid() && q0 < len && Contents()[len - 1] == '$'
      modifies buf
      ensures Contents() == PadToDollar(old(Contents()), q0)
    {
      ghost var s := Contents();
      var q := q0;
      while buf[q] != '$'
        invariant q0 <= q < len
        invariant forall i :: 0 <= i < q0 ==> buf[i] == s[i]
        invariant forall i :: q <= i < len ==> buf[i] == s[i]
        invariant forall i :: q0 <= i < q ==> buf[i] == ' ' && s[i] != '$'
        decreases len - q
      {
        if q == len - 1 {
          assert false;
        }
        buf[q] := ' ';
        q := q + 1;
      }
      PadLoopDone(s, buf[..len], q0, q);
    }

    /** Writes "$keyword: value $" (value cut to the room left) or
        "$keyword: $" over a buffer starting with "$keyword": the colon,
        the blank, the strncpy of the value and the closing " $" are
        written as one piece. */
    method Expand(n: nat, v: string)
      requires Valid() && n <= KeywordMaxLen - 5 && n + 2 <= len && buf[0] == '$'
      modifies this, buf
      ensures Valid() && buf == old(buf)
      ensures Contents() == ExpandedText(old(buf[1..n + 1]), v, KeywordMaxLen - 5 - n)
    {
      ghost var a := buf[..];
      var tail := ExpandedTail(v, KeywordMaxLen - 5 - n);
      WriteAt(n + 1, tail);
      len := n + 1 + |tail|;
      ExpandWritten(a, n, v, KeywordMaxLen - 5 - n);
    }

    /** Writes t over the contents from position at on; the length stays. */
    method WriteWithin(at: nat, t: string)
      requires Valid() && at + |t| <= len
      modifies buf
      ensures Contents() == old(Contents())[..at] + t + old(Contents())[at + |t|..]
      ensures at + |t| < len ==> buf[len - 1] == old(buf[len - 1])
    {
      ghost var whole := buf[..];
      WriteAt(at, t);
      SpliceTake(whole, at, t, len);
    }

    /** The fixed-length branch without a value: blanks up to the closing '$'. */
    method BlankFixed(n: nat)
      requires Valid() && IsKeywordText(Contents()) && n + 2 <= len && IsFixedForm(Contents(), n)
      modifies buf
      ensures Contents() == FixedSubst(old(Contents()), n, None)
    {
      PadFrom(n + 3);
    }

    /** The fixed-length branch with a value that fits: the value, then
        blanks up to the closing '$'. */
    method FillFixed(n: nat, v: string)
      requires Valid() && IsKeywordText(Contents()) && n + 6 + |v| <= len
      modifies buf
      ensures Contents() == PadToDollar(FillText(old(Contents()), n, v), n + 4 + |v|)
    {
      ghost var s := Contents();
      var t := Strncpy(v, |v|);
      WriteWithin(n + 4, t);
      assert Contents() == FillText(s, n, v);
      PadFrom(n + 4 + |v|);
    }

    /** The fixed-length branch with a value too long: the value cut to
        the room there is, then "#$". */
    method CutFixed(n: nat, v: string)
      requires Valid() && IsKeywordText(Contents()) && n + 2 <= len && IsFixedForm(Contents(), n)
      requires |v| > len - (6 + n)
      modifies buf
      ensures Contents() == FixedSubst(old(Contents()), n, Some(v))
    {
      ghost var s := Contents();
      // strncpy up to len - 2, then buf[len - 2] = '#', buf[len - 1] = '$'
      var t := Strncpy(v, len - (6 + n)) + "#$";
      WriteWithin(n + 4, t);
      assert s[n + 4 + |t|..] == [];
    }

    /** The fixed-length branch of translate_keyword_subst. */
    method SubstFixed(n: nat, value: Option<string>)
      requires Valid() && IsKeywordText(Contents()) && n + 2 <= len && IsFixedForm(Contents(), n)
      modifies buf
      ensures Contents() == FixedSubst(old(Contents()), n, value)
    {
      if value.None? {
        BlankFixed(n);
      } else if |value.value| <= len - (6 + n) {
        FillFixed(n, value.value);
      } else {
        CutFixed(n, value.value);
      }
    }

    /** translate_keyword_subst on the buffer, with the length checks that
        keep every expansion inside keyword_buf. */
    method SubstKeyword(kw: string, value: Option<string>) returns (ok: bool)
      requires Valid() && IsKeywordText(Contents()) && NulFree(kw)
      modifies this, buf
      ensures Valid() && buf == old(buf)
      ensures ok == Subst(old(Contents()), kw, value).Some?
      ensures ok ==> Contents() == Subst(old(Contents()), kw, value).value
      ensures !ok ==> Contents() == old(Contents())
    {
      ghost var s := Contents();
      var n := |kw|;
      if len < n + 2 {
        return false;
      }
      if buf[1..n + 1] != kw {
        assert s[1..n + 1] == buf[1..n + 1];
        return false;
      }
      assert s[1..n + 1] == kw;
      if n > KeywordMaxLen - 5 {
        return false;
      }
      ok := SubstForms(kw, value);
    }

    /** The forms translate_keyword_subst recognises once the name matched:
        fixed length, unexpanded and expanded. */
    method SubstForms(kw: string, value: Option<string>) returns (ok: bool)
      requires Valid() && IsKeywordText(Contents()) && NulFree(kw)
      requires |kw| <= KeywordMaxLen - 5 && |kw| + 2 <= len && Contents()[1..|kw| + 1] == kw
      modifies this, buf
      ensures Valid() && buf == old(buf)
      ensures ok == Subst(old(Contents()), kw, value).Some?
      ensures ok ==> Contents() == Subst(old(Contents()), kw, value).value
      ensures !ok ==> Contents() == old(Contents())
    {
      ghost var s := Contents();
      var n := |kw|;
      var p := n + 1;
      ghost var cap := KeywordMaxLen - 5 - n;
      assert buf[1..n + 1] == s[1..n + 1] == kw;
      if buf[p] == ':' && buf[p + 1] == ':' && buf[p + 2] == ' '
         && (buf[len - 2] == ' ' || buf[len - 2] == '#') && 6 + n < len
      {
        assert IsFixedForm(s, n);
        SubstFixed(n, value);
        return true;
      }
      assert !IsFixedForm(s, n);
      if buf[p] == '$' || (buf[p] == ':' && buf[p + 1] == '$') {
        assert IsUnexpandedForm(s, n);
        if value.Some? {
          assert Subst(s, kw, value) == Some(ExpandedText(kw, value.value, cap));
          Expand(n, value.value);
        } else {
          assert Subst(s, kw, value) == Some(s);
        }
        return true;
      }
      assert !IsUnexpandedForm(s, n);
      if len >= 4 + n && buf[p] == ':' && buf[p + 1] == ' ' && buf[len - 2] == ' ' {
        assert IsExpandedForm(s, n);
        if value.None? {
          assert Subst(s, kw, value) == Some("$" + kw + "$");
          buf[p] := '$';
          len := 2 + n;
          assert buf[..len] == "$" + kw + "$";
        } else {
          assert Subst(s, kw, value) == Some(ExpandedText(kw, value.value, cap));
          Expand(n, value.value);
        }
        return true;
      }
      assert !IsExpandedForm(s, n);
      return false;
    }

    /** translate_keyword: read the name up to the first ':', look it up
        and expand (with its value) or contract the keyword it names. */
    method TranslateKeyword(expand: bool, keywords: Option<map<string, string>>) returns (ok: bool)
      requires Valid() && IsKeywordText(Contents()) && 2 <= len
      modifies this, buf
      ensures Valid() && buf == old(buf)
      ensures ok == TranslateKeywordSpec(old(Contents()), expand, keywords).Some?
      ensures ok ==> Contents() == TranslateKeywordSpec(old(Contents()), expand, keywords).value
      ensures !ok ==> Contents() == old(Contents())
    {
      if keywords.None? {
        return false;
      }
      ghost var s := Contents();
      var i := 0;
      while i < len - 2 && buf[i + 1] != ':'
        invariant 0 <= i <= len - 2
        invariant NameEnd(s, i) == NameEnd(s, 0)
      {
        i := i + 1;
      }
      assert s[1..i + 1] == buf[1..i + 1];
      var name := CPrefix(buf[1..i + 1]);
      if name in keywords.value {
        ok := SubstKeyword(name, if expand then Some(keywords.value[name]) else None);
      } else {
        ok := false;
      }
    }
  }
}
