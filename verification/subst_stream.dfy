/** The translating copy of subversion/libsvn_subr/subst.c: line endings
    are rewritten to the requested one and keywords are expanded or
    contracted as the text streams through (translate_newline,
    svn_subst_translate_stream3, svn_subst_translate_cstring2). */
module SubstStream {
  import opened Common
  import opened SubstKeywords
  import opened SubstBuffer

  /** What a translation is asked to do: eol_str (NULL: leave line
      endings alone), repair, the keyword map (NULL: leave keywords
      alone) and expand. */
  datatype Config = Config(eol: Option<string>, repair: bool, keywords: Option<map<string, string>>, expand: bool)

  /** SVN_ERR_IO_INCONSISTENT_EOL */
  datatype StreamError = InconsistentEol

  /** The state between two characters: newline_buf, keyword_buf,
      src_format and everything written so far; Failed once
      translate_newline has returned its error. */
  datatype Scan = Scan(newline: string, keyword: string, srcFormat: string, out: string) | Failed

  const Start := Scan("", "", "", "")

  /** The states the loop can be in: at most a CR waiting, a keyword
      being read that starts with '$' and still leaves room for its
      closing '$', never both. */
  predicate ValidScan(st: Scan) {
    st.Scan? ==>
      && (st.newline == "" || st.newline == "\r")
      && (st.keyword == "" || (st.keyword[0] == '$' && |st.keyword| <= KeywordMaxLen - 1))
      && (st.newline == "" || st.keyword == "")
  }

  /** Nothing waiting: the state the boring scan runs in. */
  predicate Settled(st: Scan) {
    st.Scan? && st.newline == "" && st.keyword == ""
  }

  /** The characters the boring scan stops at ("$\r\n", "\r\n" or "$"). */
  predicate Interesting(cfg: Config, c: char) {
    (c == '$' && cfg.keywords.Some?) || ((c == '\r' || c == '\n') && cfg.eol.Some?)
  }

  /** translate_newline: the first line ending met is remembered in
      src_format; a later one of another kind is an error unless
      repairing. The result is the new src_format. */
  function TranslateNewline(srcFormat: string, nl: string, repair: bool): Result<string, StreamError> {
    if srcFormat != "" then
      if !repair && srcFormat != nl then Err(InconsistentEol) else Ok(srcFormat)
    else Ok(nl)
  }

  function EolText(cfg: Config): string {
    if cfg.eol.Some? then cfg.eol.value else ""
  }

  /** A line ending read: checked against src_format and replaced by eol_str. */
  function EmitNewline(cfg: Config, st: Scan, nl: string): Scan
    requires st.Scan?
  {
    var f := TranslateNewline(st.srcFormat, nl, cfg.repair);
    if f.Err? then Failed
    else Scan("", st.keyword, f.value, st.out + EolText(cfg))
  }

  /** The boring state meets c: copied, or the switch on '$', '\r', '\n'. */
  function Boring(cfg: Config, st: Scan, c: char): Scan
    requires st.Scan?
  {
    if !Interesting(cfg, c) then st.(out := st.out + [c])
    else if c == '$' then st.(keyword := "$")
    else if c == '\r' then st.(newline := "\r")
    else EmitNewline(cfg, st, "\n")
  }

  /** The keyword read so far is written out as it is. */
  function FlushKeyword(st: Scan): Scan
    requires st.Scan?
  {
    st.(keyword := "", out := st.out + st.keyword)
  }

  /** One character of svn_subst_translate_stream3: first the waiting CR
      or keyword is settled (lines 820-857), then, unless that used the
      character up, the character is met in the boring state. */
  function Step(cfg: Config, st: Scan, c: char): (r: Scan)
    requires ValidScan(st)
    ensures ValidScan(r)
  {
    if st.Failed? then Failed
    else if st.newline != "" then
      if c == '\n' then EmitNewline(cfg, st, st.newline + "\n")
      else
        var st1 := EmitNewline(cfg, st, st.newline);
        if st1.Failed? then Failed else Boring(cfg, st1, c)
    else if st.keyword != "" && c == '$' then
      var t := TranslateKeywordSpec(st.keyword + "$", cfg.expand, cfg.keywords);
      if t.Some? then Scan("", "", st.srcFormat, st.out + t.value)
      else Boring(cfg, FlushKeyword(st), c)
    else if |st.keyword| == KeywordMaxLen - 1 || (st.keyword != "" && (c == '\r' || c == '\n')) then
      Boring(cfg, FlushKeyword(st), c)
    else if st.keyword != "" then st.(keyword := st.keyword + [c])
    else Boring(cfg, st, c)
  }

  /** The states after the characters of src from position i on. */
  function RunFrom(cfg: Config, st: Scan, src: string, i: nat): (r: Scan)
    requires ValidScan(st) && i <= |src|
    ensures ValidScan(r)
    decreases |src| - i
  {
    if i == |src| then st else RunFrom(cfg, Step(cfg, st, src[i]), src, i + 1)
  }

  /** The end of the stream: a waiting CR is translated, a keyword still
      being read is written as it is. */
  function Finish(cfg: Config, st: Scan): Result<string, StreamError>
    requires ValidScan(st)
  {
    if st.Failed? then Err(InconsistentEol)
    else
      var st1 := if st.newline != "" then EmitNewline(cfg, st, st.newline) else st;
      if st1.Failed? then Err(InconsistentEol) else Ok(st1.out + st1.keyword)
  }

  /** What svn_subst_translate_stream3 writes for the whole of src. */
  function Translate(cfg: Config, src: string): Result<string, StreamError> {
    Finish(cfg, RunFrom(cfg, Start, src, 0))
  }

  /** After the error nothing changes. */
  lemma {:induction false} FailedStays(cfg: Config, src: string, i: nat)
    requires i <= |src|
    ensures RunFrom(cfg, Failed, src, i) == Failed
    decreases |src| - i
  {
    if i < |src| {
      FailedStays(cfg, src, i + 1);
    }
  }

  /** In the boring state the settling does nothing. */
  lemma SettledStep(cfg: Config, st: Scan, c: char)
    requires ValidScan(st) && Settled(st)
    ensures Step(cfg, st, c) == Boring(cfg, st, c)
  {
  }

  /** One character further. */
  lemma RunUnfold(cfg: Config, st: Scan, src: string, i: nat)
    requires ValidScan(st) && i < |src|
    ensures RunFrom(cfg, st, src, i) == RunFrom(cfg, Step(cfg, st, src[i]), src, i + 1)
  {
  }

  /** Lines 820-857: settle a waiting CR or keyword against c. Consumed
      means c was used up; otherwise the state is boring and c is still
      to be met there. */
  method SettlePending(kb: KeywordBuffer, newline: string, srcFormat: string, out: string, c: char, cfg: Config)
    returns (newline': string, srcFormat': string, out': string, consumed: bool, failed: bool)
    requires kb.Valid() && ValidScan(Scan(newline, kb.Contents(), srcFormat, out))
    modifies kb, kb.buf
    ensures kb.Valid() && kb.buf == old(kb.buf)
    ensures var st := Scan(newline, old(kb.Contents()), srcFormat, out);
      var st' := Scan(newline', kb.Contents(), srcFormat', out');
      && (failed ==> Step(cfg, st, c) == Failed)
      && (!failed ==> ValidScan(st'))
      && (!failed && consumed ==> st' == Step(cfg, st, c) && newline' == "")
      && (!failed && !consumed ==> Settled(st') && Step(cfg, st, c) == Step(cfg, st', c))
  {
    newline', srcFormat', out', consumed, failed := newline, srcFormat, out, false, false;
    if newline != "" {
      if c == '\n' {
        newline' := newline + "\n";
        consumed := true;
      }
      var f := TranslateNewline(srcFormat, newline', cfg.repair);
      if f.Err? {
        failed := true;
        return;
      }
      srcFormat' := f.value;
      out' := out + EolText(cfg);
      newline' := "";
    } else if kb.len > 0 && c == '$' {
      // A '$' ends the pending keyword; when it is not translated, the '$'
      // is kept back to open the next one.
      kb.Push('$');
      var ok := kb.TranslateKeyword(cfg.expand, cfg.keywords);
      if ok {
        consumed := true;
      } else {
        kb.Drop();
      }
      out' := out + kb.Contents();
      kb.Clear();
    } else if kb.len == KeywordMaxLen - 1 || (kb.len > 0 && (c == '\r' || c == '\n')) {
      // The buffer is full or a line ends: the pending text was no keyword.
      out' := out + kb.Contents();
      kb.Clear();
    } else if kb.len > 0 {
      kb.Push(c);
      consumed := true;
    }
  }

  /** Lines 874-891: the switch on the interesting character that ended
      a boring run. */
  method MeetInteresting(kb: KeywordBuffer, srcFormat: string, out: string, c: char, cfg: Config)
    returns (newline': string, srcFormat': string, out': string, failed: bool)
    requires kb.Valid() && kb.Contents() == [] && Interesting(cfg, c)
    modifies kb, kb.buf
    ensures kb.Valid() && kb.buf == old(kb.buf)
    ensures var st' := Boring(cfg, Scan("", "", srcFormat, out), c);
      && (failed <==> st'.Failed?)
      && (!failed ==> st' == Scan(newline', kb.Contents(), srcFormat', out'))
  {
    newline', srcFormat', out', failed := "", srcFormat, out, false;
    if c == '$' {
      kb.Push('$');
      assert kb.Contents() == "$";
    } else if c == '\r' {
      newline' := "\r";
    } else {
      var f := TranslateNewline(srcFormat, "\n", cfg.repair);
      if f.Err? {
        failed := true;
        return;
      }
      srcFormat' := f.value;
      out' := out + EolText(cfg);
    }
  }

  /** Lines 859-892, from the boring state: copy the run of boring
      characters, then set up the state for the interesting one. */
  method BoringRun(kb: KeywordBuffer, srcFormat: string, out: string, src: string, p: nat, cfg: Config)
    returns (newline': string, srcFormat': string, out': string, p': nat, failed: bool)
    requires kb.Valid() && kb.Contents() == [] && p <= |src|
    modifies kb, kb.buf
    ensures kb.Valid() && kb.buf == old(kb.buf)
    ensures p <= p' <= |src| && (p < |src| ==> p < p')
    ensures var st := Scan("", "", srcFormat, out);
      var st' := Scan(newline', kb.Contents(), srcFormat', out');
      && (failed ==> RunFrom(cfg, st, src, p) == Failed)
      && (!failed ==> ValidScan(st') && RunFrom(cfg, st, src, p) == RunFrom(cfg, st', src, p'))
  {
    var len := 0;
    assert out + src[p..p] == out;
    while p + len < |src| && !Interesting(cfg, src[p + len])
      invariant p + len <= |src|
      invariant kb.Valid() && kb.Contents() == [] && kb.buf == old(kb.buf)
      invariant RunFrom(cfg, Scan("", "", srcFormat, out), src, p)
             == RunFrom(cfg, Scan("", "", srcFormat, out + src[p..p + len]), src, p + len)
    {
      ghost var st := Scan("", "", srcFormat, out + src[p..p + len]);
      RunUnfold(cfg, st, src, p + len);
      SettledStep(cfg, st, src[p + len]);
      assert out + src[p..p + len + 1] == out + src[p..p + len] + [src[p + len]] by {
        assert src[p..p + len + 1] == src[p..p + len] + [src[p + len]];
      }
      len := len + 1;
    }
    newline', srcFormat', out' := "", srcFormat, out;
    if len > 0 {
      out' := out + src[p..p + len];
    }
    p' := p + len;
    failed := false;
    if p' < |src| {
      ghost var st := Scan("", "", srcFormat', out');
      RunUnfold(cfg, st, src, p');
      SettledStep(cfg, st, src[p']);
      newline', srcFormat', out', failed := MeetInteresting(kb, srcFormat', out', src[p'], cfg);
      if failed {
        FailedStays(cfg, src, p' + 1);
      }
      p' := p' + 1;
    }
  }

  /** svn_subst_translate_stream3 over src, read as one chunk. */
  method TranslateStream(src: string, cfg: Config) returns (r: Result<string, StreamError>)
    requires cfg.eol.Some? || cfg.keywords.Some?
    ensures r == Translate(cfg, src)
  {
    var kb := new KeywordBuffer();
    var newline := "";
    var srcFormat := "";
    var out := "";
    var p := 0;
    while p < |src|
      invariant 0 <= p <= |src|
      invariant kb.Valid() && fresh(kb) && fresh(kb.buf)
      invariant ValidScan(Scan(newline, kb.Contents(), srcFormat, out))
      invariant Translate(cfg, src) == Finish(cfg, RunFrom(cfg, Scan(newline, kb.Contents(), srcFormat, out), src, p))
      decreases |src| - p
    {
      ghost var st := Scan(newline, kb.Contents(), srcFormat, out);
      RunUnfold(cfg, st, src, p);
      var consumed, failed;
      newline, srcFormat, out, consumed, failed := SettlePending(kb, newline, srcFormat, out, src[p], cfg);
      if failed {
        FailedStays(cfg, src, p + 1);
        return Err(InconsistentEol);
      }
      if consumed {
        p := p + 1;
        if kb.len > 0 {
          // still reading a keyword
          continue;
        }
      } else {
        RunUnfold(cfg, Scan(newline, kb.Contents(), srcFormat, out), src, p);
      }
      assert newline == "" && kb.Contents() == [];
      assert Translate(cfg, src) == Finish(cfg, RunFrom(cfg, Scan("", "", srcFormat, out), src, p));
      newline, srcFormat, out, p, failed := BoringRun(kb, srcFormat, out, src, p, cfg);
      if failed {
        return Err(InconsistentEol);
      }
    }
    assert Translate(cfg, src) == Finish(cfg, Scan(newline, kb.Contents(), srcFormat, out));
    if newline != "" {
      var f := TranslateNewline(srcFormat, newline, cfg.repair);
      if f.Err? {
        return Err(InconsistentEol);
      }
      srcFormat := f.value;
      out := out + EolText(cfg);
      newline := "";
    }
    if kb.len > 0 {
      out := out + kb.Contents();
    } else {
      assert out + kb.Contents() == out;
    }
    r := Ok(out);
  }
}
