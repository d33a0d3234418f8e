/** The entry points of subversion/libsvn_subr/subst.c that translate a
    whole text: svn_subst_translate_cstring2 and the wrappers taking the
    old keyword struct (svn_subst_translate_stream2,
    svn_subst_translate_cstring). */
module SubstTranslate {
  import opened Common
  import opened SubstKeywords
  import opened SubstStream
  import opened SubstStreamLaws

  /** With neither line endings nor keywords to translate, the scan would
      copy the text, so the shortcut of translate_cstring2 agrees with it. */
  lemma NothingRequested(cfg: Config, src: string)
    requires cfg.eol.None? && cfg.keywords.None?
    ensures Translate(cfg, src) == Ok(src)
  {
    PassThrough(cfg, src);
  }

  /** svn_subst_translate_cstring2: a copy when nothing is requested,
      otherwise the text run through translate_stream3. */
  method TranslateCString2(src: string, eol: Option<string>, repair: bool,
                           keywords: Option<map<string, string>>, expand: bool)
    returns (r: Result<string, StreamError>)
    ensures r == Translate(Config(eol, repair, keywords, expand), src)
    ensures eol.None? && keywords.None? ==> r == Ok(src)
  {
    var cfg := Config(eol, repair, keywords, expand);
    if eol.None? && keywords.None? {
      NothingRequested(cfg, src);
      return Ok(src);
    }
    r := TranslateStream(src, cfg);
  }

  /** svn_subst_translate_stream2: the keyword struct is turned into the
      keyword map first. */
  method TranslateStream2(src: string, eol: Option<string>, repair: bool,
                          keywords: Option<KeywordStruct>, expand: bool)
    returns (r: Result<string, StreamError>)
    requires eol.Some? || keywords.Some?
    ensures r == Translate(Config(eol, repair, KwStructToHash(keywords), expand), src)
  {
    r := TranslateStream(src, Config(eol, repair, KwStructToHash(keywords), expand));
  }

  /** svn_subst_translate_cstring: the keyword struct is turned into the
      keyword map first; no struct and no eol_str is a copy. */
  method TranslateCString(src: string, eol: Option<string>, repair: bool,
                          keywords: Option<KeywordStruct>, expand: bool)
    returns (r: Result<string, StreamError>)
    ensures r == Translate(Config(eol, repair, KwStructToHash(keywords), expand), src)
    ensures eol.None? && keywords.None? ==> r == Ok(src)
  {
    r := TranslateCString2(src, eol, repair, KwStructToHash(keywords), expand);
  }
}
