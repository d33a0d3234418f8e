/** The keyword side of subversion/libsvn_subr/subst.c: the svn:eol-style
    lookup, the keyword_printf format interpreter, building a keyword map
    from an svn:keywords value, the old keyword struct and the two
    keyword-set comparisons. */
module SubstKeywords {
  import opened Common

  // ---------------------------------------------------------------------
  // svn:eol-style
  // ---------------------------------------------------------------------

  /** svn_subst_eol_style_t */
  datatype EolStyle = StyleUnknown | StyleNone | StyleNative | StyleFixed

  /** APR_EOL_STR, the platform's own line ending. */
  predicate IsNativeEol(e: string) {
    e == "\n" || e == "\r\n"
  }

  /** The three line endings Subversion knows. */
  predicate IsNewline(e: string) {
    e == "\n" || e == "\r" || e == "\r\n"
  }

  /** The svn:eol-style value that names a fixed line ending. */
  function EolName(e: string): string
    requires IsNewline(e)
  {
    if e == "\n" then "LF" else if e == "\r" then "CR" else "CRLF"
  }

  /** svn_subst_eol_style_from_value: a missing property means no
      translation, the four known values select a line ending, anything
      else is an unknown style without a line ending. */
  function EolStyleFromValue(value: Option<string>, native: string): (r: (EolStyle, Option<string>))
    requires IsNativeEol(native)
    ensures r.0 == StyleNone <==> value.None?
    ensures r.0 == StyleNative <==> value == Some("native")
    ensures r.0 == StyleFixed <==> value.Some? && value.value in {"LF", "CR", "CRLF"}
    ensures r.1.Some? <==> r.0 == StyleNative || r.0 == StyleFixed
    ensures r.0 == StyleNative ==> r.1 == Some(native)
    ensures r.0 == StyleFixed ==> IsNewline(r.1.value) && EolName(r.1.value) == value.value
  {
    if value.None? then (StyleNone, None)
    else if value.value == "native" then (StyleNative, Some(native))
    else if value.value == "LF" then (StyleFixed, Some("\n"))
    else if value.value == "CR" then (StyleFixed, Some("\r"))
    else if value.value == "CRLF" then (StyleFixed, Some("\r\n"))
    else (StyleUnknown, None)
  }

  /** Naming a line ending and looking the name up gives the line ending back. */
  lemma FixedEolRoundTrip(e: string, native: string)
    requires IsNewline(e) && IsNativeEol(native)
    ensures EolStyleFromValue(Some(EolName(e)), native) == (StyleFixed, Some(e))
  {
  }

  // ---------------------------------------------------------------------
  // keyword_printf
  // ---------------------------------------------------------------------

  /** What keyword_printf is told about one revision of one file; an
      absent string is a NULL pointer and a date of 0 means "no date". */
  datatype RevisionInfo = RevisionInfo(rev: Option<string>, url: Option<string>, date: int, author: Option<string>)

  /** The library calls keyword_printf leaves to others: the short and
      long date formats (apr_time_exp_gmt, svn_time_to_human_cstring) and
      the URI-decoded basename of the URL. */
  datatype Formatters = Formatters(shortDate: int -> string, longDate: int -> string, baseName: string -> string)

  function OrEmpty(s: Option<string>): string {
    if s.Some? then s.value else ""
  }

  /** What one two-character format code "%c" produces. */
  function CodeValue(code: char, info: RevisionInfo, fx: Formatters): string {
    match code
    case 'a' => OrEmpty(info.author)
    case 'b' => if info.url.Some? then fx.baseName(info.url.value) else ""
    case 'd' => if info.date != 0 then fx.shortDate(info.date) else ""
    case 'D' => if info.date != 0 then fx.longDate(info.date) else ""
    case 'r' => OrEmpty(info.rev)
    case 'u' => OrEmpty(info.url)
    case '%' => "%"
    case _ => ['%', code]
  }

  predicate NoPercent(s: string) {
    forall i :: 0 <= i < |s| ==> s[i] != '%'
  }

  /** The meaning of a format string, read from left to right: plain text
      is copied, "%c" is replaced by CodeValue, a final lone '%' stays. */
  function Format(fmt: string, info: RevisionInfo, fx: Formatters): string
    decreases |fmt|
  {
    if fmt == [] then []
    else if fmt[0] != '%' then [fmt[0]] + Format(fmt[1..], info, fx)
    else if |fmt| == 1 then "%"
    else CodeValue(fmt[1], info, fx) + Format(fmt[2..], info, fx)
  }

  /** One step of Format on plain text. */
  lemma FormatPlainStep(s: string, info: RevisionInfo, fx: Formatters)
    requires s != [] && s[0] != '%'
    ensures Format(s, info, fx) == [s[0]] + Format(s[1..], info, fx)
  {
  }

  /** One step of Format on a two-character code. */
  lemma FormatCodeStep(s: string, info: RevisionInfo, fx: Formatters)
    requires |s| >= 2 && s[0] == '%'
    ensures Format(s, info, fx) == CodeValue(s[1], info, fx) + Format(s[2..], info, fx)
  {
  }

  /** Text without a '%' is copied verbatim. */
  lemma {:induction false} FormatVerbatim(t: string, rest: string, info: RevisionInfo, fx: Formatters)
    requires NoPercent(t)
    ensures Format(t + rest, info, fx) == t + Format(rest, info, fx)
    decreases |t|
  {
    if t != [] {
      assert (t + rest)[0] == t[0] && (t + rest)[1..] == t[1..] + rest;
      FormatPlainStep(t + rest, info, fx);
      FormatVerbatim(t[1..], rest, info, fx);
      calc {
        Format(t + rest, info, fx);
        [t[0]] + Format(t[1..] + rest, info, fx);
        [t[0]] + (t[1..] + Format(rest, info, fx));
        { assert [t[0]] + t[1..] == t; }
        t + Format(rest, info, fx);
      }
    } else {
      assert t + rest == rest;
    }
  }

  /** A run of plain text inside a format string is copied verbatim. */
  lemma FormatRun(fmt: string, start: nat, cur: nat, info: RevisionInfo, fx: Formatters)
    requires start <= cur <= |fmt| && NoPercent(fmt[start..cur])
    ensures Format(fmt[start..], info, fx) == fmt[start..cur] + Format(fmt[cur..], info, fx)
  {
    assert fmt[start..] == fmt[start..cur] + fmt[cur..];
    FormatVerbatim(fmt[start..cur], fmt[cur..], info, fx);
  }

  /** The scan of keyword_printf for the next '%' or the end of the
      format string. */
  method ScanPlain(fmt: string, start: nat) returns (cur: nat)
    requires start <= |fmt|
    ensures start <= cur <= |fmt| && NoPercent(fmt[start..cur])
    ensures cur < |fmt| ==> fmt[cur] == '%'
  {
    cur := start;
    while cur < |fmt| && fmt[cur] != '%'
      invariant start <= cur <= |fmt|
      invariant NoPercent(fmt[start..cur])
    {
      assert fmt[start..cur + 1] == fmt[start..cur] + [fmt[cur]];
      cur := cur + 1;
    }
  }

  /** keyword_printf: copies each run of plain text, then interprets the
      format code after it, until the end of the format string. */
  method KeywordPrintf(fmt: string, info: RevisionInfo, fx: Formatters) returns (value: string)
    ensures value == Format(fmt, info, fx)
  {
    value := "";
    var start := 0;
    while true
      invariant 0 <= start <= |fmt|
      invariant value + Format(fmt[start..], info, fx) == Format(fmt, info, fx)
      decreases |fmt| - start
    {
      var cur := ScanPlain(fmt, start);
      FormatRun(fmt, start, cur, info, fx);
      ghost var before := value;
      if cur > start {
        value := value + fmt[start..cur];
      }
      assert value == before + fmt[start..cur];
      AppendAssoc(before, fmt[start..cur], Format(fmt[cur..], info, fx));
      if cur == |fmt| {
        break;
      }
      if cur + 1 == |fmt| {
        // '%' as the last character: copied, and the next round stops
        assert fmt[cur..] == "%";
        value := value + "%";
        start := cur + 1;
        assert fmt[start..] == [];
      } else {
        assert fmt[cur..][2..] == fmt[cur + 2..];
        FormatCodeStep(fmt[cur..], info, fx);
        AppendAssoc(value, CodeValue(fmt[cur + 1], info, fx), Format(fmt[cur + 2..], info, fx));
        value := value + CodeValue(fmt[cur + 1], info, fx);
        start := cur + 2;
      }
    }
  }

  /** A format code after plain text: the text, then what the code gives. */
  lemma FormatCode(t: string, code: char, rest: string, info: RevisionInfo, fx: Formatters)
    requires NoPercent(t)
    ensures Format(t + ['%', code] + rest, info, fx) == t + (CodeValue(code, info, fx) + Format(rest, info, fx))
  {
    assert t + ['%', code] + rest == t + (['%', code] + rest);
    FormatVerbatim(t, ['%', code] + rest, info, fx);
    assert (['%', code] + rest)[2..] == rest;
  }

  /** A format code that gives nothing leaves only the text around it. */
  lemma FormatEmptyCode(t: string, code: char, rest: string, info: RevisionInfo, fx: Formatters)
    requires NoPercent(t) && CodeValue(code, info, fx) == ""
    ensures Format(t + ['%', code] + rest, info, fx) == t + Format(rest, info, fx)
  {
    FormatCode(t, code, rest, info, fx);
    assert CodeValue(code, info, fx) + Format(rest, info, fx) == Format(rest, info, fx);
  }

  /** The rules keyword_printf's comments state: "%%" gives one '%', an
      unknown code is copied as its two characters, a trailing '%' gives
      '%', and a missing author, URL, revision or date adds nothing. */
  lemma FormatCodeRules(t: string, rest: string, c: char, info: RevisionInfo, fx: Formatters)
    requires NoPercent(t)
    ensures Format(t + "%%" + rest, info, fx) == t + "%" + Format(rest, info, fx)
    ensures c !in "abdDru%" ==> Format(t + ['%', c] + rest, info, fx) == t + ['%', c] + Format(rest, info, fx)
    ensures Format(t + "%", info, fx) == t + "%"
    ensures info.author.None? ==> Format(t + "%a" + rest, info, fx) == t + Format(rest, info, fx)
    ensures info.url.None? ==> Format(t + "%u" + rest, info, fx) == t + Format(rest, info, fx)
    ensures info.url.None? ==> Format(t + "%b" + rest, info, fx) == t + Format(rest, info, fx)
    ensures info.rev.None? ==> Format(t + "%r" + rest, info, fx) == t + Format(rest, info, fx)
    ensures info.date == 0 ==> Format(t + "%d" + rest, info, fx) == t + Format(rest, info, fx)
    ensures info.date == 0 ==> Format(t + "%D" + rest, info, fx) == t + Format(rest, info, fx)
  {
    FormatCode(t, '%', rest, info, fx);
    AppendAssoc(t, "%", Format(rest, info, fx));
    if c !in "abdDru%" {
      FormatCode(t, c, rest, info, fx);
      AppendAssoc(t, ['%', c], Format(rest, info, fx));
    }
    if info.author.None? {
      FormatEmptyCode(t, 'a', rest, info, fx);
    }
    if info.url.None? {
      FormatEmptyCode(t, 'u', rest, info, fx);
      FormatEmptyCode(t, 'b', rest, info, fx);
    }
    if info.rev.None? {
      FormatEmptyCode(t, 'r', rest, info, fx);
    }
    if info.date == 0 {
      FormatEmptyCode(t, 'd', rest, info, fx);
      FormatEmptyCode(t, 'D', rest, info, fx);
    }
    FormatVerbatim(t, "%", info, fx);
  }

  // ---------------------------------------------------------------------
  // Keyword names and the keyword map
  // ---------------------------------------------------------------------

  /** The keyword names of svn_types.h (SVN_KEYWORD_*). */
  const RevisionLong := "LastChangedRevision"
  const RevisionMedium := "Revision"
  const RevisionShort := "Rev"
  const DateLong := "LastChangedDate"
  const DateShort := "Date"
  const AuthorLong := "LastChangedBy"
  const AuthorShort := "Author"
  const UrlLong := "HeadURL"
  const UrlShort := "URL"
  const IdName := "Id"

  /** SVN_KEYWORD_MAX_LEN: the longest keyword string "$...$" translated. */
  const KeywordMaxLen: nat := 255

  /** The five kinds of keyword build_keywords2 recognises. */
  datatype KeywordKind = Revision | Date | Author | Url | Id

  /** The names under which one kind of keyword is stored. */
  function Names(k: KeywordKind): set<string> {
    match k
    case Revision => {RevisionLong, RevisionMedium, RevisionShort}
    case Date => {DateLong, DateShort}
    case Author => {AuthorLong, AuthorShort}
    case Url => {UrlLong, UrlShort}
    case Id => {IdName}
  }

  function AllNames(): set<string> {
    Names(Revision) + Names(Date) + Names(Author) + Names(Url) + Names(Id)
  }

  /** The kind a stored keyword name belongs to. */
  function NameKind(n: string): Option<KeywordKind>
    ensures NameKind(n).Some? <==> n in AllNames()
    ensures NameKind(n).Some? ==> n in Names(NameKind(n).value)
  {
    if n in Names(Revision) then Some(Revision)
    else if n in Names(Date) then Some(Date)
    else if n in Names(Author) then Some(Author)
    else if n in Names(Url) then Some(Url)
    else if n == IdName then Some(Id)
    else None
  }

  /** Each name of a kind is looked up as that kind. */
  lemma NameKindOfName(k: KeywordKind, n: string)
    requires n in Names(k)
    ensures NameKind(n) == Some(k)
  {
    match k
    case Revision =>
    case Date =>
      assert |n| == 15 || |n| == 4;
    case Author =>
      assert |n| == 13 || |n| == 6;
    case Url =>
      assert |n| == 7 || n == UrlShort;
      assert n != RevisionShort by { if n == UrlShort { assert n[0] != RevisionShort[0]; } }
    case Id =>
      assert |n| == 2;
  }

  /** The first name of each kind. */
  function LongName(k: KeywordKind): (n: string)
    ensures n in Names(k)
  {
    match k
    case Revision => RevisionLong
    case Date => DateLong
    case Author => AuthorLong
    case Url => UrlLong
    case Id => IdName
  }

  /** The format keyword_printf is given for each kind. */
  function KindFormat(k: KeywordKind): string {
    match k
    case Revision => "%r"
    case Date => "%D"
    case Author => "%a"
    case Url => "%u"
    case Id => "%b %r %d %a"
  }

  /** ASCII case folding, as strcasecmp does it. */
  function Lower(c: char): char {
    if 'A' <= c <= 'Z' then (c as int + 32) as char else c
  }

  /** strcasecmp(a, b) == 0 */
  predicate SameIgnoringCase(a: string, b: string) {
    |a| == |b| && forall i :: 0 <= i < |a| ==> Lower(a[i]) == Lower(b[i])
  }

  /** The kind a token of svn:keywords asks for: long names must match
      exactly, short names (and "Revision") are matched as in lines
      328-375, some of them without regard to case. */
  function KindOfToken(t: string): Option<KeywordKind> {
    if t == RevisionLong || t == RevisionMedium || SameIgnoringCase(t, RevisionShort) then Some(Revision)
    else if t == DateLong || SameIgnoringCase(t, DateShort) then Some(Date)
    else if t == AuthorLong || SameIgnoringCase(t, AuthorShort) then Some(Author)
    else if t == UrlLong || SameIgnoringCase(t, UrlShort) then Some(Url)
    else if SameIgnoringCase(t, IdName) then Some(Id)
    else None
  }

  /** The separators svn:keywords is split on. */
  predicate IsSeparator(c: char) {
    c in " \t\U{000B}\n\U{0008}\r\U{000C}"
  }

  /** svn_cstring_split(s, " \t\v\n\b\r\f", TRUE): the maximal runs of
      non-separator characters, with `cur` the run read so far. */
  function TokensFrom(s: string, cur: string): (r: seq<string>)
    requires forall j :: 0 <= j < |cur| ==> !IsSeparator(cur[j])
    ensures forall i :: 0 <= i < |r| ==> r[i] != [] && forall j :: 0 <= j < |r[i]| ==> !IsSeparator(r[i][j])
    decreases |s|
  {
    if s == [] then
      (if cur == [] then [] else [cur])
    else if IsSeparator(s[0]) then
      (if cur == [] then [] else [cur]) + TokensFrom(s[1..], [])
    else
      TokensFrom(s[1..], cur + [s[0]])
  }

  function Tokens(s: string): seq<string> {
    TokensFrom(s, [])
  }

  /** The kinds a list of tokens asks for. */
  function RequestedKinds(tokens: seq<string>): set<KeywordKind> {
    set t | t in tokens && KindOfToken(t).Some? :: KindOfToken(t).value
  }

  /** The keyword map holding every name of every requested kind, each
      with the value its kind's format gives. */
  function KeywordTable(kinds: set<KeywordKind>, info: RevisionInfo, fx: Formatters): map<string, string> {
    map n | n in AllNames() && NameKind(n).value in kinds :: Format(KindFormat(NameKind(n).value), info, fx)
  }

  /** Adding one kind to the table stores its value under all its names. */
  lemma TableAddKind(kinds: set<KeywordKind>, k: KeywordKind, info: RevisionInfo, fx: Formatters)
    ensures KeywordTable(kinds + {k}, info, fx)
         == KeywordTable(kinds, info, fx) + map n | n in Names(k) :: Format(KindFormat(k), info, fx)
  {
    var lhs := KeywordTable(kinds + {k}, info, fx);
    var rhs := KeywordTable(kinds, info, fx) + map n | n in Names(k) :: Format(KindFormat(k), info, fx);
    forall n ensures (n in lhs <==> n in rhs) && (n in lhs ==> lhs[n] == rhs[n]) {
      if n in Names(k) {
        NameKindOfName(k, n);
      }
    }
  }

  /** The kinds asked for grow by the kind of each further token. */
  lemma RequestedKindsSnoc(tokens: seq<string>, t: string)
    ensures RequestedKinds(tokens + [t])
         == RequestedKinds(tokens) + (if KindOfToken(t).Some? then {KindOfToken(t).value} else {})
  {
    var s := tokens + [t];
    forall k | k in RequestedKinds(s)
      ensures k in RequestedKinds(tokens) || KindOfToken(t) == Some(k)
    {
      var u :| u in s && KindOfToken(u) == Some(k);
      if u != t {
        assert u in tokens;
      }
    }
    forall u | u in tokens ensures u in s {
    }
    assert t in s;
  }

  /** The apr_hash_set calls for one kind: its value under each of its names. */
  function StoreUnder(kw: map<string, string>, k: KeywordKind, v: string): map<string, string> {
    match k
    case Revision => kw[RevisionLong := v][RevisionMedium := v][RevisionShort := v]
    case Date => kw[DateLong := v][DateShort := v]
    case Author => kw[AuthorLong := v][AuthorShort := v]
    case Url => kw[UrlLong := v][UrlShort := v]
    case Id => kw[IdName := v]
  }

  lemma StoreUnderAddsNames(kw: map<string, string>, k: KeywordKind, v: string)
    ensures StoreUnder(kw, k, v) == kw + map n | n in Names(k) :: v
  {
  }

  /** One more token: its kind's value stored under all the kind's names. */
  lemma {:induction false} TableSnoc(tokens: seq<string>, t: string, info: RevisionInfo, fx: Formatters)
    ensures KindOfToken(t).None? ==>
      KeywordTable(RequestedKinds(tokens + [t]), info, fx) == KeywordTable(RequestedKinds(tokens), info, fx)
    ensures KindOfToken(t).Some? ==>
      KeywordTable(RequestedKinds(tokens + [t]), info, fx)
      == StoreUnder(KeywordTable(RequestedKinds(tokens), info, fx), KindOfToken(t).value,
                    Format(KindFormat(KindOfToken(t).value), info, fx))
  {
    RequestedKindsSnoc(tokens, t);
    if KindOfToken(t).Some? {
      var k := KindOfToken(t).value;
      TableAddKind(RequestedKinds(tokens), k, info, fx);
      StoreUnderAddsNames(KeywordTable(RequestedKinds(tokens), info, fx), k, Format(KindFormat(k), info, fx));
    } else {
      assert RequestedKinds(tokens + [t]) == RequestedKinds(tokens);
    }
  }

  /** What build_keywords2 does with one token: the value of its kind,
      stored under all the kind's names; nothing for an unknown token. */
  function AddToken(kw: map<string, string>, t: string, info: RevisionInfo, fx: Formatters): map<string, string> {
    var kind := KindOfToken(t);
    if kind.Some? then StoreUnder(kw, kind.value, Format(KindFormat(kind.value), info, fx)) else kw
  }

  /** The map after the tokens, one token after the other. */
  function BuildTable(tokens: seq<string>, info: RevisionInfo, fx: Formatters): map<string, string> {
    if tokens == [] then map[]
    else AddToken(BuildTable(tokens[..|tokens| - 1], info, fx), tokens[|tokens| - 1], info, fx)
  }

  /** Token by token, the map is the table of the requested kinds. */
  lemma {:induction false} BuildTableIsTable(tokens: seq<string>, info: RevisionInfo, fx: Formatters)
    ensures BuildTable(tokens, info, fx) == KeywordTable(RequestedKinds(tokens), info, fx)
  {
    if tokens == [] {
      assert RequestedKinds(tokens) == {};
    } else {
      var init := tokens[..|tokens| - 1];
      BuildTableIsTable(init, info, fx);
      assert tokens == init + [tokens[|tokens| - 1]];
      TableSnoc(init, tokens[|tokens| - 1], info, fx);
    }
  }

  /** The loop of svn_subst_build_keywords2 over the tokens. */
  method StoreTokens(tokens: seq<string>, info: RevisionInfo, fx: Formatters) returns (kw: map<string, string>)
    ensures kw == BuildTable(tokens, info, fx)
  {
    kw := map[];
    var i := 0;
    while i < |tokens|
      invariant 0 <= i <= |tokens|
      invariant kw == BuildTable(tokens[..i], info, fx)
    {
      var keyword := tokens[i];
      var kind := KindOfToken(keyword);
      assert tokens[..i + 1][..i] == tokens[..i];
      if kind.Some? {
        var v := KeywordPrintf(KindFormat(kind.value), info, fx);
        kw := StoreUnder(kw, kind.value, v);
      }
      i := i + 1;
    }
    assert tokens[..i] == tokens;
  }

  /** svn_subst_build_keywords2: for each token of the svn:keywords value,
      store the value of its kind under all names of that kind. */
  method BuildKeywords2(keywordsVal: string, info: RevisionInfo, fx: Formatters) returns (kw: map<string, string>)
    ensures kw == KeywordTable(RequestedKinds(Tokens(keywordsVal)), info, fx)
  {
    var tokens := Tokens(keywordsVal);
    kw := StoreTokens(tokens, info, fx);
    BuildTableIsTable(tokens, info, fx);
  }

  /** Any spelling of the revision keyword stores the same value, the
      revision or nothing, under all three revision names. */
  lemma RevisionSpellingsAgree(tokens: seq<string>, t: string, info: RevisionInfo, fx: Formatters)
    requires t in tokens
    requires t == RevisionLong || t == RevisionMedium || SameIgnoringCase(t, RevisionShort)
    ensures var m := KeywordTable(RequestedKinds(tokens), info, fx);
      && RevisionLong in m && RevisionMedium in m && RevisionShort in m
      && m[RevisionLong] == m[RevisionMedium] == m[RevisionShort] == OrEmpty(info.rev)
  {
    assert KindOfToken(t) == Some(Revision);
    assert Revision in RequestedKinds(tokens);
    assert Format("%r", info, fx) == OrEmpty(info.rev) + Format("", info, fx);
  }

  /** A format code followed by a blank. */
  lemma FormatCodeSpace(c: char, rest: string, info: RevisionInfo, fx: Formatters)
    ensures Format(['%', c, ' '] + rest, info, fx) == CodeValue(c, info, fx) + (" " + Format(rest, info, fx))
  {
    var s := ['%', c, ' '] + rest;
    FormatCodeStep(s, info, fx);
    assert s[2..] == [' '] + rest;
    FormatPlainStep(s[2..], info, fx);
    assert s[2..][1..] == rest;
  }

  /** Four format codes separated by single blanks. */
  lemma FormatFourCodes(b: char, r: char, d: char, a: char, info: RevisionInfo, fx: Formatters)
    ensures Format(['%', b, ' ', '%', r, ' ', '%', d, ' ', '%', a], info, fx)
         == CodeValue(b, info, fx) + (" " + (CodeValue(r, info, fx) + (" "
            + (CodeValue(d, info, fx) + (" " + CodeValue(a, info, fx))))))
  {
    var last := ['%', a];
    assert ['%', b, ' ', '%', r, ' ', '%', d, ' ', '%', a]
        == ['%', b, ' '] + (['%', r, ' '] + (['%', d, ' '] + last));
    FormatCodeSpace(b, ['%', r, ' '] + (['%', d, ' '] + last), info, fx);
    FormatCodeSpace(r, ['%', d, ' '] + last, info, fx);
    FormatCodeSpace(d, last, info, fx);
    FormatCodeStep(last, info, fx);
    assert last[2..] == [];
  }

  /** The Id format "%b %r %d %a": basename, revision, short date and
      author separated by single spaces. */
  lemma IdFormat(info: RevisionInfo, fx: Formatters)
    ensures Format(KindFormat(Id), info, fx)
         == CodeValue('b', info, fx) + (" " + (CodeValue('r', info, fx) + (" "
            + (CodeValue('d', info, fx) + (" " + CodeValue('a', info, fx))))))
  {
    FormatFourCodes('b', 'r', 'd', 'a', info, fx);
  }

  /** The Id keyword, once asked for, is stored with the Id format's value. */
  lemma IdValue(tokens: seq<string>, info: RevisionInfo, fx: Formatters)
    requires Id in RequestedKinds(tokens)
    ensures var m := KeywordTable(RequestedKinds(tokens), info, fx);
      IdName in m &&
      m[IdName] == CodeValue('b', info, fx) + (" " + (CodeValue('r', info, fx) + (" "
                   + (CodeValue('d', info, fx) + (" " + CodeValue('a', info, fx))))))
  {
    NameKindOfName(Id, IdName);
    IdFormat(info, fx);
  }

  /** A token that names no keyword adds nothing to the map, wherever it stands. */
  lemma UnknownTokenAddsNothing(before: seq<string>, t: string, after: seq<string>, info: RevisionInfo, fx: Formatters)
    requires KindOfToken(t).None?
    ensures KeywordTable(RequestedKinds(before + [t] + after), info, fx)
         == KeywordTable(RequestedKinds(before + after), info, fx)
  {
    var s1, s2 := before + [t] + after, before + after;
    forall k | k in RequestedKinds(s1) ensures k in RequestedKinds(s2) {
      var u :| u in s1 && KindOfToken(u) == Some(k);
      assert u in s2;
    }
    forall k | k in RequestedKinds(s2) ensures k in RequestedKinds(s1) {
      var u :| u in s2 && KindOfToken(u) == Some(k);
      assert u in s1;
    }
    assert RequestedKinds(s1) == RequestedKinds(s2);
  }

  // ---------------------------------------------------------------------
  // The old keyword struct
  // ---------------------------------------------------------------------

  /** svn_subst_keywords_t: one optional value per keyword kind. */
  datatype KeywordStruct = KeywordStruct(revision: Option<string>, date: Option<string>, author: Option<string>,
                                         url: Option<string>, id: Option<string>)

  function Field(s: KeywordStruct, k: KeywordKind): Option<string> {
    match k
    case Revision => s.revision
    case Date => s.date
    case Author => s.author
    case Url => s.url
    case Id => s.id
  }

  /** kwstruct_to_kwhash: NULL stays NULL; every present field is stored
      under all the names of its kind. */
  function KwStructToHash(s: Option<KeywordStruct>): (r: Option<map<string, string>>)
    ensures r.None? <==> s.None?
    ensures s.Some? ==> forall n :: n in r.value <==> n in AllNames() && Field(s.value, NameKind(n).value).Some?
    ensures s.Some? ==> forall n :: n in r.value ==> Some(r.value[n]) == Field(s.value, NameKind(n).value)
  {
    if s.None? then None
    else
      var k := s.value;
      Some(map n | n in AllNames() && Field(k, NameKind(n).value).Some? :: Field(k, NameKind(n).value).value)
  }

  /** The slot svn_subst_build_keywords writes: a slot changes only when
      build_keywords2 produced the kind's long name. */
  function StructFromTable(old_kw: KeywordStruct, m: map<string, string>): KeywordStruct {
    KeywordStruct(
      if RevisionLong in m then Some(m[RevisionLong]) else old_kw.revision,
      if DateLong in m then Some(m[DateLong]) else old_kw.date,
      if AuthorLong in m then Some(m[AuthorLong]) else old_kw.author,
      if UrlLong in m then Some(m[UrlLong]) else old_kw.url,
      if IdName in m then Some(m[IdName]) else old_kw.id)
  }

  /** A slot of the filled struct is the map's value under the kind's first name. */
  lemma StructFromTableField(old_kw: KeywordStruct, m: map<string, string>, k: KeywordKind)
    ensures Field(StructFromTable(old_kw, m), k)
         == if LongName(k) in m then Some(m[LongName(k)]) else Field(old_kw, k)
  {
  }

  /** The first name of a kind is in the table exactly when the kind was
      asked for, with that kind's value. */
  lemma TableLongName(kinds: set<KeywordKind>, k: KeywordKind, info: RevisionInfo, fx: Formatters)
    ensures LongName(k) in KeywordTable(kinds, info, fx) <==> k in kinds
    ensures k in kinds ==> KeywordTable(kinds, info, fx)[LongName(k)] == Format(KindFormat(k), info, fx)
  {
    NameKindOfName(k, LongName(k));
  }

  /** svn_subst_build_keywords: fill the old struct from build_keywords2's
      map, leaving the slots of keywords not asked for untouched. */
  method BuildKeywords(kw: KeywordStruct, keywordsVal: string, info: RevisionInfo, fx: Formatters)
    returns (r: KeywordStruct)
    ensures var kinds := RequestedKinds(Tokens(keywordsVal));
      forall k :: Field(r, k) == if k in kinds then Some(Format(KindFormat(k), info, fx)) else Field(kw, k)
  {
    var kwhash := BuildKeywords2(keywordsVal, info, fx);
    r := StructFromTable(kw, kwhash);
    forall k ensures Field(r, k) == if k in RequestedKinds(Tokens(keywordsVal)) then Some(Format(KindFormat(k), info, fx)) else Field(kw, k) {
      StructFromTableField(kw, kwhash, k);
      TableLongName(RequestedKinds(Tokens(keywordsVal)), k, info, fx);
    }
  }

  const EmptyStruct := KeywordStruct(None, None, None, None, None)

  /** A struct holding exactly the values of some kinds converts to the
      table of those kinds. */
  lemma HashOfTableStruct(s: KeywordStruct, kinds: set<KeywordKind>, info: RevisionInfo, fx: Formatters)
    requires forall k :: Field(s, k) == if k in kinds then Some(Format(KindFormat(k), info, fx)) else None
    ensures KwStructToHash(Some(s)) == Some(KeywordTable(kinds, info, fx))
  {
    var h, m := KwStructToHash(Some(s)).value, KeywordTable(kinds, info, fx);
    forall n ensures (n in h <==> n in m) && (n in h ==> h[n] == m[n]) {
      if n in AllNames() {
        var k := NameKind(n).value;
        assert Field(s, k) == if k in kinds then Some(Format(KindFormat(k), info, fx)) else None;
      }
    }
    assert h == m;
  }

  /** Filling an empty struct from build_keywords2's map and converting
      it back with kwstruct_to_kwhash gives the same map. */
  lemma StructRoundTrip(kinds: set<KeywordKind>, info: RevisionInfo, fx: Formatters)
    ensures KwStructToHash(Some(StructFromTable(EmptyStruct, KeywordTable(kinds, info, fx)))) == Some(KeywordTable(kinds, info, fx))
  {
    var m := KeywordTable(kinds, info, fx);
    var s := StructFromTable(EmptyStruct, m);
    forall k ensures Field(s, k) == if k in kinds then Some(Format(KindFormat(k), info, fx)) else None {
      StructFromTableField(EmptyStruct, m, k);
      TableLongName(kinds, k, info, fx);
    }
    HashOfTableStruct(s, kinds, info, fx);
  }

  // ---------------------------------------------------------------------
  // Comparing keyword sets
  // ---------------------------------------------------------------------

  /** A NULL map stands for the empty map. */
  function Entries(m: Option<map<string, string>>): map<string, string> {
    if m.None? then map[] else m.value
  }

  lemma SubsetOfSameSize<T>(x: set<T>, y: set<T>)
    requires x <= y && |x| == |y|
    ensures x == y
  {
    var d := y - x;
    assert y == x + d && x !! d;
    assert |d| == 0;
  }

  /** svn_subst_keywords_differ2: maps of different sizes differ; maps of
      one size differ when a key of A is missing from B or, when values
      are compared, has another value there. */
  function KeywordsDiffer2(a: Option<map<string, string>>, b: Option<map<string, string>>, compareValues: bool): (r: bool)
    ensures !r <==> Entries(a).Keys == Entries(b).Keys && (compareValues ==> Entries(a) == Entries(b))
  {
    var ma, mb := Entries(a), Entries(b);
    if |ma| != |mb| then true
    else if |ma| == 0 then false
    else
      var found := exists k :: k in ma && (k !in mb || (compareValues && ma[k] != mb[k]));
      if !found then
        SubsetOfSameSize(ma.Keys, mb.Keys);
        assert ma.Keys == mb.Keys;
        false
      else true
  }

  /** Properties the comparison's comments promise. */
  lemma Differ2Properties(a: Option<map<string, string>>, b: Option<map<string, string>>, cv: bool)
    ensures KeywordsDiffer2(None, Some(map[]), cv) == false
    ensures |Entries(a)| != |Entries(b)| ==> KeywordsDiffer2(a, b, cv)
    ensures KeywordsDiffer2(a, b, false) <==> Entries(a).Keys != Entries(b).Keys
    ensures !KeywordsDiffer2(a, a, cv)
    ensures KeywordsDiffer2(a, b, cv) == KeywordsDiffer2(b, a, cv)
  {
  }

  /** The four fields the old comparison looks at; NULL has none. */
  function Compared(s: Option<KeywordStruct>, k: KeywordKind): Option<string> {
    if s.None? || k == Id then None else Field(s.value, k)
  }

  /** svn_subst_keywords_differ: NULL and a struct without revision, date,
      author and URL count as equal; a NULL against a struct with one of
      them differs; otherwise the four fields are compared one by one. */
  function KeywordsDiffer(a: Option<KeywordStruct>, b: Option<KeywordStruct>, compareValues: bool): bool {
    if || (a.None? && b.None?)
       || (a.None? && b.value.revision.None? && b.value.date.None? && b.value.author.None? && b.value.url.None?)
       || (b.None? && a.value.revision.None? && a.value.date.None? && a.value.author.None? && a.value.url.None?)
       || (a.Some? && b.Some?
           && b.value.revision.None? && b.value.date.None? && b.value.author.None? && b.value.url.None?
           && a.value.revision.None? && a.value.date.None? && a.value.author.None? && a.value.url.None?)
    then false
    else if a.None? || b.None? then true
    else
      var x, y := a.value, b.value;
      if x.revision.None? != y.revision.None? then true
      else if compareValues && x.revision.Some? && x.revision != y.revision then true
      else if x.date.None? != y.date.None? then true
      else if compareValues && x.date.Some? && x.date != y.date then true
      else if x.author.None? != y.author.None? then true
      else if compareValues && x.author.Some? && x.author != y.author then true
      else if x.url.None? != y.url.None? then true
      else if compareValues && x.url.Some? && x.url != y.url then true
      else false
  }

  /** One field seen the same way by both sides. */
  predicate FieldAgrees(x: Option<string>, y: Option<string>, compareValues: bool) {
    x.Some? == y.Some? && (compareValues ==> x == y)
  }

  /** What the old comparison decides: two keyword structs (NULL having no
      fields) are the same exactly when each of revision, date, author and
      URL is present on both sides or on neither, with equal values when
      values are compared. */
  lemma KeywordsDifferMeaning(a: Option<KeywordStruct>, b: Option<KeywordStruct>, compareValues: bool)
    ensures !KeywordsDiffer(a, b, compareValues)
        <==> forall k :: FieldAgrees(Compared(a, k), Compared(b, k), compareValues)
  {
    var four := && FieldAgrees(Compared(a, Revision), Compared(b, Revision), compareValues)
                && FieldAgrees(Compared(a, Date), Compared(b, Date), compareValues)
                && FieldAgrees(Compared(a, Author), Compared(b, Author), compareValues)
                && FieldAgrees(Compared(a, Url), Compared(b, Url), compareValues);
    if four {
      forall k ensures FieldAgrees(Compared(a, k), Compared(b, k), compareValues) {
        match k
        case Revision =>
        case Date =>
        case Author =>
        case Url =>
        case Id =>
      }
    }
    assert !KeywordsDiffer(a, b, compareValues) <==> four;
  }

  /** The old comparison never looks at the id field. */
  lemma DifferIgnoresId(a: KeywordStruct, b: KeywordStruct, ia: Option<string>, ib: Option<string>, cv: bool)
    ensures KeywordsDiffer(Some(a), Some(b), cv) == KeywordsDiffer(Some(a.(id := ia)), Some(b.(id := ib)), cv)
  {
    assert forall k :: Compared(Some(a), k) == Compared(Some(a.(id := ia)), k);
    assert forall k :: Compared(Some(b), k) == Compared(Some(b.(id := ib)), k);
  }

  function WithoutId(s: Option<KeywordStruct>): Option<KeywordStruct> {
    if s.None? then None else Some(s.value.(id := None))
  }

  /** The map of a struct with its id dropped holds exactly the fields the
      old comparison looks at. */
  lemma HashOfCompared(a: Option<KeywordStruct>, n: string)
    ensures var h := Entries(KwStructToHash(WithoutId(a)));
      && (n in h <==> n in AllNames() && Compared(a, NameKind(n).value).Some?)
      && (n in h ==> Some(h[n]) == Compared(a, NameKind(n).value))
  {
  }

  /** The old comparison is the new one applied to the converted structs,
      once the id field the old one ignores is dropped. */
  lemma DifferAgreesWithDiffer2(a: Option<KeywordStruct>, b: Option<KeywordStruct>, cv: bool)
    ensures KeywordsDiffer(a, b, cv) == KeywordsDiffer2(KwStructToHash(WithoutId(a)), KwStructToHash(WithoutId(b)), cv)
  {
    var ha, hb := Entries(KwStructToHash(WithoutId(a))), Entries(KwStructToHash(WithoutId(b)));
    KeywordsDifferMeaning(a, b, cv);
    if KeywordsDiffer(a, b, cv) {
      var k :| !FieldAgrees(Compared(a, k), Compared(b, k), cv);
      var n := LongName(k);
      NameKindOfName(k, n);
      HashOfCompared(a, n);
      HashOfCompared(b, n);
      assert (n in ha.Keys) != (n in hb.Keys) || (cv && ha[n] != hb[n]);
    } else {
      forall n ensures (n in ha <==> n in hb) && (cv && n in ha ==> ha[n] == hb[n]) {
        HashOfCompared(a, n);
        HashOfCompared(b, n);
        if n in AllNames() {
          assert FieldAgrees(Compared(a, NameKind(n).value), Compared(b, NameKind(n).value), cv);
        }
      }
      assert ha.Keys == hb.Keys;
      if cv {
        assert ha == hb;
      }
    }
  }
}
