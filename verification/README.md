# Keyword and end-of-line substitution, and diff decisions, of Subversion

This project models two parts of Subversion in Dafny.

The first part is the substitution engine of `subversion/libsvn_subr/subst.c`. It covers:

- the `svn:eol-style` values;
- the keyword value formatter `keyword_printf`;
- the construction of the keyword map from an `svn:keywords` value (`svn_subst_build_keywords2`, and the old keyword struct of `svn_subst_build_keywords` and `kwstruct_to_kwhash`);
- the in-place rewriting of one `$Keyword...$` string (`translate_keyword_subst`, `translate_keyword`) in the unexpanded, expanded and fixed-length forms;
- the check that line endings are consistent (`translate_newline`);
- the character-by-character copy of `svn_subst_translate_stream3`, with its pending-newline and pending-keyword buffers, and the entry points that call it;
- the comparison of keyword sets (`svn_subst_keywords_differ`, `svn_subst_keywords_differ2`).

The second part is the decision logic of `subversion/libsvn_client/diff.c`:

- `maybe_append_eol`;
- the labelling of property changes and the "\ No newline at end of property" marker;
- the visited-path set that decides whether the `Index:` header of a path is shown;
- the `relative_to_dir` rewriting of label paths;
- the repository/working-copy classification of `check_paths` and the dispatch that follows it;
- the rule that a summary compares only repository to repository.

Files:

- `common.dfy`: `Option`, `Result` and NUL-free strings.
- `subst_keywords.dfy` (module `SubstKeywords`): eol styles, `keyword_printf`, keyword maps, keyword structs and their comparisons.
- `subst_buffer.dfy` (module `SubstBuffer`): the rules of `translate_keyword_subst` and `translate_keyword` as functions, and the class `KeywordBuffer`, which is `keyword_buf` with `keyword_off` as an array and a length, and which applies those rules in place.
- `subst_stream.dfy` (module `SubstStream`): the copy as a step function over a state (`Step`, `RunFrom`, `Finish`, `Translate`), and the imperative method `TranslateStream`, proved equal to it.
- `subst_stream_laws.dfy` (module `SubstStreamLaws`): what the copy does to whole texts.
  - Text without interesting characters passes through unchanged.
  - An unclosed keyword is written back verbatim.
  - A keyword is expanded and contracted again inside surrounding text.
  - Line endings are normalised, and consistency is checked.
- `subst_translate.dfy` (module `SubstTranslate`): `svn_subst_translate_cstring2` and the wrappers that take the old keyword struct.
- `diff_logic.dfy` (module `DiffLogic`): the `diff.c` decisions and the class `DiffCmdBaton`.

The keyword names and `SVN_KEYWORD_MAX_LEN` (255) come from a header that is not part of this model. The project uses Subversion's published values:

- `LastChangedRevision`, `Rev`, `Revision`;
- `LastChangedDate`, `Date`;
- `LastChangedBy`, `Author`;
- `HeadURL`, `URL`;
- `Id`.

## Model

| member | source | states |
|---|---|---|
| SubstKeywords.EolStyleFromValue | subversion/libsvn_subr/subst.c:50-92 | NULL gives style none and no string; "native" gives the native eol with style native; "LF", "CR" and "CRLF" give "\n", "\r" and "\r\n" with style fixed; anything else gives style unknown and no string (each an iff) |
| SubstKeywords.FixedEolRoundTrip | subversion/libsvn_subr/subst.c:50-92 | the name of each fixed line ending maps back to that line ending with style fixed |
| SubstKeywords.KeywordPrintf | subversion/libsvn_subr/subst.c:117-209 | the loop appending to the string buffer yields exactly the left-to-right meaning `Format` of the format string |
| SubstKeywords.ScanPlain | subversion/libsvn_subr/subst.c:131-137 | the scan for the next '%' stops at a '%' or at the end, with no '%' in the run it passed |
| SubstKeywords.FormatRun | subversion/libsvn_subr/subst.c:131-137 | a run of characters without '%' is copied verbatim |
| SubstKeywords.FormatCodeRules | subversion/libsvn_subr/subst.c:142-205 | "%%" gives one "%"; an unknown code "%x" is copied as two characters; a trailing lone "%" gives "%" and ends the output; a missing author, url or revision and a zero date give nothing for %a, %u/%b, %r and %d/%D |
| SubstKeywords.FormatCode | subversion/libsvn_subr/subst.c:131-205 | a plain run followed by a code "%c" gives the run, then the value of the code, then the meaning of the rest |
| SubstKeywords.FormatEmptyCode | subversion/libsvn_subr/subst.c:142-205 | a code whose value is empty adds nothing between the run before it and the rest |
| SubstKeywords.NameKind | subversion/libsvn_subr/subst.c:215-263 | a name has a kind exactly when it is one of the stored keyword names, and it is among the names of that kind |
| SubstKeywords.NameKindOfName | subversion/libsvn_subr/subst.c:215-263 | every name of a kind is looked up as that kind (no name is shared by two kinds) |
| SubstKeywords.TokensFrom | subversion/libsvn_subr/subst.c:321-322 | the tokens of the split are non-empty and hold no separator character |
| SubstKeywords.StoreUnderAddsNames | subversion/libsvn_subr/subst.c:334-381 | storing a value for a kind puts it under every name of that kind |
| SubstKeywords.BuildKeywords2 | subversion/libsvn_subr/subst.c:308-387 | the loop over the tokens yields the map holding every name of every requested kind, each with its kind's formatted value, and nothing else |
| SubstKeywords.TableSnoc | subversion/libsvn_subr/subst.c:324-384 | one more token leaves the map alone when it names no keyword, and otherwise stores its kind's formatted value under every name of that kind |
| SubstKeywords.BuildTableIsTable | subversion/libsvn_subr/subst.c:321-384 | storing the tokens one after another gives the map of the requested kinds |
| SubstKeywords.StoreTokens | subversion/libsvn_subr/subst.c:321-384 | the loop over the tokens stores, token by token, what `BuildTable` describes |
| SubstKeywords.RevisionSpellingsAgree | subversion/libsvn_subr/subst.c:328-340 | any accepted spelling of the revision keyword stores the same "%r" value under all three revision names |
| SubstKeywords.IdFormat | subversion/libsvn_subr/subst.c:374-380 | the Id value is basename, " ", revision, " ", short date, " ", author, as "%b %r %d %a" gives them |
| SubstKeywords.FormatFourCodes | subversion/libsvn_subr/subst.c:131-205 | a format of four codes separated by blanks gives the four values separated by blanks |
| SubstKeywords.IdValue | subversion/libsvn_subr/subst.c:374-380 | when Id is requested, the map holds that value under "Id" |
| SubstKeywords.UnknownTokenAddsNothing | subversion/libsvn_subr/subst.c:324-384 | a token that names no keyword leaves the map as it would be without it |
| SubstKeywords.KwStructToHash | subversion/libsvn_subr/subst.c:215-263 | NULL stays NULL; a name is in the map iff it is a keyword name whose kind's field is set, with that field's value |
| SubstKeywords.StructFromTableField | subversion/libsvn_subr/subst.c:280-303 | a slot of the old struct changes only when the map holds the kind's first name, and then takes that value |
| SubstKeywords.TableLongName | subversion/libsvn_subr/subst.c:285-303 | the first name of a kind is in the built map iff the kind was requested, with the kind's value |
| SubstKeywords.BuildKeywords | subversion/libsvn_subr/subst.c:265-306 | each field of the struct gets its kind's value when the kind is requested and keeps its old value otherwise |
| SubstKeywords.HashOfTableStruct | subversion/libsvn_subr/subst.c:215-263 | a struct holding exactly the values of some kinds converts to the map of those kinds |
| SubstKeywords.StructRoundTrip | subversion/libsvn_subr/subst.c:215-306 | filling an empty struct from the built map and converting it back gives the same map |
| SubstKeywords.KeywordsDiffer2 | subversion/libsvn_subr/subst.c:724-762 | two maps, NULL counting as empty, do not differ iff they have the same keys and, when values are compared, the same values |
| SubstKeywords.Differ2Properties | subversion/libsvn_subr/subst.c:724-762 | NULL equals the empty map; maps of different sizes differ; without value comparison only the key sets count; a map never differs from itself; the comparison is symmetric |
| SubstKeywords.KeywordsDifferMeaning | subversion/libsvn_subr/subst.c:660-722 | two structs, NULL having no fields, do not differ iff revision, date, author and url are each present on both sides or on neither, with equal values when values are compared |
| SubstKeywords.DifferIgnoresId | subversion/libsvn_subr/subst.c:660-722 | the old comparison never looks at the id field |
| SubstKeywords.HashOfCompared | subversion/libsvn_subr/subst.c:215-263 | the map of a struct without its id holds exactly the fields the old comparison looks at |
| SubstKeywords.DifferAgreesWithDiffer2 | subversion/libsvn_subr/subst.c:660-762 | the old comparison equals the new one on the converted structs, once the id field is dropped |
| SubstBuffer.CPrefix | subversion/libsvn_subr/subst.c:597-599 | the C string a buffer holds is a NUL-free prefix of it, ended by a NUL or by the buffer's end |
| SubstBuffer.Strncpy | subversion/libsvn_subr/subst.c:464 | strncpy writes exactly n characters: the value up to its first NUL, then NULs |
| SubstBuffer.StrncpyChars | subversion/libsvn_subr/subst.c:464 | each character strncpy writes is the value's character before its first NUL and NUL after it |
| SubstBuffer.StrncpyNulFree | subversion/libsvn_subr/subst.c:464 | strncpy of a NUL-free value copies it exactly |
| SubstBuffer.PadUpTo | subversion/libsvn_subr/subst.c:457-458 | the padding blanks exactly the characters before the first '$' and keeps that '$' and what follows |
| SubstBuffer.PadLoopDone | subversion/libsvn_subr/subst.c:457-458 | blanking from the start up to the first '$' and keeping the rest is the padding of the text |
| SubstBuffer.PadChars | subversion/libsvn_subr/subst.c:457-458 | each character of the padding is a blank or the original one, and the closing '$' is kept |
| SubstBuffer.PadKeeps | subversion/libsvn_subr/subst.c:457-458 | the padding keeps the length, the text before its start and the closing '$', and writes only blanks |
| SubstBuffer.FixedStaysFixed | subversion/libsvn_subr/subst.c:443-478 | a fixed-length keyword keeps its length and its "$keyword:: " head, and stays a fixed-length keyword, whatever is written into it |
| SubstBuffer.BlankStaysFixed | subversion/libsvn_subr/subst.c:453-459 | contracting a fixed-length keyword keeps its length and its "$keyword:: " head |
| SubstBuffer.FillStaysFixed | subversion/libsvn_subr/subst.c:462-468 | filling in a value that fits keeps the length and the "$keyword:: " head |
| SubstBuffer.CutStaysFixed | subversion/libsvn_subr/subst.c:469-475 | writing a cut value keeps the length and the "$keyword:: " head |
| SubstBuffer.FillText | subversion/libsvn_subr/subst.c:462-465 | the value written after "$keyword:: " keeps the length, the head, everything after the value and the closing '$' |
| SubstBuffer.ExpandedTextShape | subversion/libsvn_subr/subst.c:488-508 | "$keyword: value $" with the value cut to the room left is a keyword string of the expanded form, and of no other form |
| SubstBuffer.SubstFits | subversion/libsvn_subr/subst.c:413-558 | whatever the corrected substitution writes is again a "$keyword...$" string of at most SVN_KEYWORD_MAX_LEN characters, with the same name |
| SubstBuffer.SubstAsWrittenOverflows | subversion/libsvn_subr/subst.c:496-501 | as written, expanding "$Rev$" with a 250-character value writes 258 characters, more than keyword_buf holds; the corrected rule writes 255 |
| SubstBuffer.ExpandValue | subversion/libsvn_subr/subst.c:486-502 | an unexpanded "$keyword$" expands to "$keyword: value $" with the whole value when it fits and has no NUL |
| SubstBuffer.ExpandUnexpanded | subversion/libsvn_subr/subst.c:481-515 | expanding "$keyword$" gives "$keyword: value $" with the value cut to the room left, or "$keyword: $" for an empty value |
| SubstBuffer.ExpandThenContract | subversion/libsvn_subr/subst.c:481-555 | expanding "$keyword$" and contracting the result gives "$keyword$" back, whatever the value |
| SubstBuffer.ReExpand | subversion/libsvn_subr/subst.c:530-553 | re-expanding an expanded keyword forgets the old value; expanding twice with the same value changes nothing the second time |
| SubstBuffer.ContractUnexpanded | subversion/libsvn_subr/subst.c:510-514 | contracting "$keyword$" or "$keyword:$" leaves it as it is and succeeds |
| SubstBuffer.SubstRefuses | subversion/libsvn_subr/subst.c:426-432 | the substitution fails iff the buffer is too short for the name, the name does not match, or the buffer is in none of the three forms (or, corrected, the keyword leaves no room) |
| SubstBuffer.TranslateKeywordRefuses | subversion/libsvn_subr/subst.c:590-608 | translate_keyword fails when there is no keyword map or the name read is not in it |
| SubstBuffer.FixedContract | subversion/libsvn_subr/subst.c:453-459 | contracting a fixed-length keyword blanks everything between "::" and the closing '$' |
| SubstBuffer.FixedFill | subversion/libsvn_subr/subst.c:462-468 | a value that fits is written after "$keyword:: " and blanks fill the rest; the length is unchanged |
| SubstBuffer.FixedTruncate | subversion/libsvn_subr/subst.c:469-475 | a value longer than len - (6 + keyword length) is cut to that room, with '#' before the closing '$' |
| SubstBuffer.FixedRoundTrip | subversion/libsvn_subr/subst.c:443-478 | filling a fixed-length keyword and contracting it gives the same result as contracting it directly |
| SubstBuffer.FilledFixed | subversion/libsvn_subr/subst.c:443-478 | filling a fixed-length keyword succeeds and leaves a fixed-length keyword of the same length and head, with no '$' inside |
| SubstBuffer.ContractSameHead | subversion/libsvn_subr/subst.c:453-459 | two fixed-length keywords of the same length and head contract to the same text |
| SubstBuffer.ValueKeepsNoDollar | subversion/libsvn_subr/subst.c:462-475 | filling with a value without '$' leaves no '$' inside the keyword |
| SubstBuffer.FillKeepsNoDollar | subversion/libsvn_subr/subst.c:462-468 | a value that fits and holds no '$' leaves no '$' inside the keyword |
| SubstBuffer.CutKeepsNoDollar | subversion/libsvn_subr/subst.c:469-475 | a cut value without '$' leaves no '$' inside the keyword |
| SubstBuffer.NameOfKeyword | subversion/libsvn_subr/subst.c:594-597 | the name read from "$keyword$" or "$keyword:...$" is the keyword |
| SubstBuffer.TranslateRoundTrip | subversion/libsvn_subr/subst.c:560-609 | translate_keyword expands "$keyword$" with the map's value, and contracting the result gives "$keyword$" back |
| SubstBuffer.NameEnd | subversion/libsvn_subr/subst.c:595-596 | the name ends at the first ':' after the leading '$', or just before the closing '$' |
| SubstBuffer.KeywordBuffer.constructor | subversion/libsvn_subr/subst.c:793-794 | the keyword buffer starts empty |
| SubstBuffer.KeywordBuffer.Push | subversion/libsvn_subr/subst.c:834 | appending a character adds it at the end of the contents |
| SubstBuffer.KeywordBuffer.Drop | subversion/libsvn_subr/subst.c:839 | dropping the last character removes it from the contents |
| SubstBuffer.KeywordBuffer.Clear | subversion/libsvn_subr/subst.c:843 | resetting keyword_off empties the contents |
| SubstBuffer.KeywordBuffer.WriteAt | subversion/libsvn_subr/subst.c:489-506 | a write puts the text at its position and leaves the rest of the array alone |
| SubstBuffer.KeywordBuffer.WriteWithin | subversion/libsvn_subr/subst.c:462-475 | a write inside the contents puts the text at its position and keeps the rest of the contents |
| SubstBuffer.KeywordBuffer.PadFrom | subversion/libsvn_subr/subst.c:457-458 | the in-place padding loop leaves the contents equal to `PadToDollar` of the old contents |
| SubstBuffer.KeywordBuffer.Expand | subversion/libsvn_subr/subst.c:486-508 | the writes of an expansion leave exactly "$keyword: value $" (value cut to the room left) or "$keyword: $" |
| SubstBuffer.ExpandWritten | subversion/libsvn_subr/subst.c:486-508 | the characters written after "$keyword" make up exactly "$keyword: value $" |
| SubstBuffer.KeywordBuffer.SubstFixed | subversion/libsvn_subr/subst.c:449-477 | the fixed-length branch leaves the contents equal to `FixedSubst` of the old contents |
| SubstBuffer.KeywordBuffer.BlankFixed | subversion/libsvn_subr/subst.c:453-459 | the contracting branch leaves the contents equal to the contracted fixed-length keyword |
| SubstBuffer.KeywordBuffer.FillFixed | subversion/libsvn_subr/subst.c:462-468 | the filling branch writes the value and pads with blanks up to the closing '$' |
| SubstBuffer.KeywordBuffer.CutFixed | subversion/libsvn_subr/subst.c:469-475 | the cutting branch leaves the contents equal to the fixed-length keyword with the value cut and '#' before the '$' |
| SubstBuffer.KeywordBuffer.SubstKeyword | subversion/libsvn_subr/subst.c:413-558 | TRUE iff the rules accept the buffer; on TRUE the contents are the substituted keyword; on FALSE the buffer and its length are untouched |
| SubstBuffer.KeywordBuffer.SubstForms | subversion/libsvn_subr/subst.c:443-555 | once the name matches, the three forms are tried in order: TRUE iff one applies, the contents then being its result, and untouched otherwise |
| SubstBuffer.KeywordBuffer.TranslateKeyword | subversion/libsvn_subr/subst.c:560-609 | TRUE iff a map is given, the name read is in it and the substitution succeeds; the contents are then the translated keyword, otherwise untouched |
| SubstStream.SettledStep | subversion/libsvn_subr/subst.c:859-892 | with nothing pending, one character goes straight to the boring scan |
| SubstStream.FailedStays | subversion/libsvn_subr/subst.c:643 | after the inconsistent-eol error nothing more is done |
| SubstStream.SettlePending | subversion/libsvn_subr/subst.c:820-857 | the branches that settle a pending newline or keyword produce the state `Step` gives, and say whether they used the character up |
| SubstStream.MeetInteresting | subversion/libsvn_subr/subst.c:874-891 | the switch on '$', '\r' and '\n' starts a keyword, holds a CR, or translates an LF, failing iff the line ending is inconsistent |
| SubstStream.BoringRun | subversion/libsvn_subr/subst.c:859-892 | the boring scan copies up to the next interesting character and meets it, moving forward, with the state `RunFrom` gives for those characters |
| SubstStream.TranslateStream | subversion/libsvn_subr/subst.c:778-905 | the loop with its newline and keyword buffers writes exactly `Translate(cfg, src)`, including the final flush at 896-902 |
| SubstStreamLaws.BoringRunCopied | subversion/libsvn_subr/subst.c:859-870 | a run of characters that are not interesting is copied to the output unchanged |
| SubstStreamLaws.PassThrough | subversion/libsvn_subr/subst.c:802 | a text with no interesting character is written unchanged; with no eol_str, line endings are among those characters |
| SubstStreamLaws.BoringTail | subversion/libsvn_subr/subst.c:859-870 | without eol_str and with no '$' left, the rest of the text is copied verbatim |
| SubstStreamLaws.KeywordGrows | subversion/libsvn_subr/subst.c:853-857 | characters other than '$', CR and LF are added to a pending keyword while there is room |
| SubstStreamLaws.KeywordOpened | subversion/libsvn_subr/subst.c:853-891 | a '$' starts a keyword, and the characters after it up to the next '$' are added to it |
| SubstStreamLaws.UnclosedKeywordFlushed | subversion/libsvn_subr/subst.c:845-851 | a keyword that is never closed is written back verbatim, at MAX_LEN - 1 characters or at the end of input (896-902) |
| SubstStreamLaws.UnclosedKeywordAtEol | subversion/libsvn_subr/subst.c:845-902 | with eol_str given, a keyword that is never closed is written as it was read, flushed at a line ending, at MAX_LEN - 1 characters or at the end, and the rest then has its line endings translated (or fails on an inconsistent one) |
| SubstStreamLaws.KeywordClosed | subversion/libsvn_subr/subst.c:831-843 | a closing '$' hands the keyword to translate_keyword; on success its result is written, otherwise the text before the '$' is written and the '$' starts a new keyword |
| SubstStreamLaws.KeywordCloseStep | subversion/libsvn_subr/subst.c:831-843 | a '$' ends the pending keyword: the translated keyword is written, or the keyword is written as it was and the '$' starts a new one |
| SubstStreamLaws.KeywordInText | subversion/libsvn_subr/subst.c:831-870 | a keyword between texts without '$' is replaced by what translate_keyword makes of it, or kept when that fails, and the texts around it are copied |
| SubstStreamLaws.TextBeforeKeyword | subversion/libsvn_subr/subst.c:859-870 | the text before the first '$' is copied unchanged |
| SubstStreamLaws.KeywordThenRest | subversion/libsvn_subr/subst.c:831-902 | a keyword followed by a text without '$' is translated or written as it was, and the text is copied |
| SubstStreamLaws.ExpandedIsCandidate | subversion/libsvn_subr/subst.c:481-508 | an expanded keyword with a value without '$', CR or LF is again read as one keyword by the copy |
| SubstStreamLaws.StreamExpands | subversion/libsvn_subr/subst.c:778-905 | copying with expand writes the expanded keyword in place of "$keyword$" |
| SubstStreamLaws.StreamContracts | subversion/libsvn_subr/subst.c:778-905 | copying without expand turns the expanded keyword back into "$keyword$" |
| SubstStreamLaws.Contractible | subversion/libsvn_subr/subst.c:481-555 | "$keyword: value $" is read by the copy as one keyword, and translate_keyword contracts it to "$keyword$" |
| SubstStreamLaws.ContractInText | subversion/libsvn_subr/subst.c:831-870 | a keyword text that translate_keyword turns into w, between texts without '$', comes out as w |
| SubstStreamLaws.StreamExpandThenContract | subversion/libsvn_subr/subst.c:778-905 | expanding a text and contracting the result gives the original text back |
| SubstStreamLaws.ConsistentCons | subversion/libsvn_subr/subst.c:636-651 | the line endings agree with the cached first one iff the first agrees and the rest agree with it |
| SubstStreamLaws.EndingStep | subversion/libsvn_subr/subst.c:636-651 | one line ending fails iff a different one was cached and repair is off |
| SubstStreamLaws.EolRun | subversion/libsvn_subr/subst.c:820-891 | from any state between line endings, with keywords off or no '$' left, the copy writes the normalised rest of the text or fails exactly on an inconsistency |
| SubstStreamLaws.EolEnd | subversion/libsvn_subr/subst.c:896-902 | at the end of the text a pending CR is translated like any line ending |
| SubstStreamLaws.EolRunBoring | subversion/libsvn_subr/subst.c:859-891 | with nothing pending, a CR is held, an LF is translated, and any other character (never '$' when keywords are on) is copied |
| SubstStreamLaws.EolRunCR | subversion/libsvn_subr/subst.c:820-830 | a pending CR followed by LF is one "\r\n" ending; followed by anything else it is a "\r" ending and the character is read afresh |
| SubstStreamLaws.EolTranslation | subversion/libsvn_subr/subst.c:623-654 | without keywords, or with keywords and no '$' in the text, each of "\n", "\r" and "\r\n" becomes eol_str, and the copy fails iff repair is off and the line endings are not all alike |
| SubstStreamLaws.RepairNeverFails | subversion/libsvn_subr/subst.c:638-643 | with repair on, the copy never fails, whether or not keywords are translated; without keywords, or with no '$' in the text, it is the text with every line ending written as eol_str |
| SubstStreamLaws.RepairStep | subversion/libsvn_subr/subst.c:820-891 | with repair on, no character makes the copy fail, whatever is pending |
| SubstStreamLaws.RepairRun | subversion/libsvn_subr/subst.c:817-893 | with repair on, the copy over any text never reaches the inconsistent-eol error |
| SubstTranslate.NothingRequested | subversion/libsvn_subr/subst.c:955-958 | with neither eol_str nor keywords, the copy returns the text unchanged |
| SubstTranslate.TranslateCString2 | subversion/libsvn_subr/subst.c:939-983 | the result is that of the copy; with nothing requested it is the input |
| SubstTranslate.TranslateStream2 | subversion/libsvn_subr/subst.c:764-776 | the copy with the keyword struct converted to a map |
| SubstTranslate.TranslateCString | subversion/libsvn_subr/subst.c:924-937 | the copy with the keyword struct converted to a map; with nothing requested it is the input |
| DiffLogic.MaybeAppendEol | subversion/libsvn_client/diff.c:108-137 | had_eol iff the token ends in CR or LF; the token is a prefix of the result; the result is the token iff it is empty or ends in CR or LF (or the native eol is empty); the result then ends in an eol unless empty |
| DiffLogic.MaybeAppendEolIdempotent | subversion/libsvn_client/diff.c:101-137 | applying maybe_append_eol to its own result changes nothing, and then had_eol holds unless the text is empty |
| DiffLogic.ClassifyPropChange | subversion/libsvn_client/diff.c:328-340 | skipped iff both sides are absent or equal; Added iff only the new value exists; Deleted iff only the original exists; Modified iff both exist and differ |
| DiffLogic.ReportFor | subversion/libsvn_client/diff.c:322-405 | a change is reported iff it is not skipped, with its name and action; svn:mergeinfo is pretty-printed iff each side that is present parses as mergeinfo (an absent side is not parsed, 55-63); otherwise the no-newline marker follows iff the new value (absent as "") has no trailing eol, and both texts end in an eol |
| DiffLogic.PropReportsExactly | subversion/libsvn_client/diff.c:315-406 | a report is written exactly for each change that is not skipped |
| DiffLogic.ReportedExactly | subversion/libsvn_client/diff.c:315-406 | a given report is written iff some change produces it |
| DiffLogic.ReportHasSource | subversion/libsvn_client/diff.c:315-406 | every report written comes from one of the changes |
| DiffLogic.ReportIncluded | subversion/libsvn_client/diff.c:315-406 | the report of every change that is not skipped is written |
| DiffLogic.NothingChangedNothingReported | subversion/libsvn_client/diff.c:328-333 | when every original value equals the new one, nothing is written |
| DiffLogic.DisplayPropDiffs | subversion/libsvn_client/diff.c:315-406 | the loop over the property changes writes the reports in order, skipped ones left out |
| DiffLogic.DiffCmdBaton.constructor | subversion/libsvn_client/diff.c:1013-1018 | no path is visited and force_empty is off; the original paths and relative_to_dir are kept as given, and each original path splits into the common ancestor and the part that tells the labels apart (204-206) |
| DiffLogic.DiffCmdBaton.MarkPathAsVisited | subversion/libsvn_client/diff.c:423-432 | the path is added to the visited set, and nothing else changes |
| DiffLogic.DiffCmdBaton.PropsChanged | subversion/libsvn_client/diff.c:434-454 | the header is shown iff the path was not yet visited, and the call fails iff it would show the header and the path (an empty path read as ".", 277-283) or one of the labels built from it lies outside relative_to_dir, with that path's bad-relative-path error; on success the reports are those of display_prop_diffs and the path is visited, on failure it is not |
| DiffLogic.DiffCmdBaton.ContentChanged | subversion/libsvn_client/diff.c:478-535 | the call fails iff the path or one of the labels built from it lies outside relative_to_dir (482-483), with that path's error and no path visited; otherwise the header shows the path as relative_to_dir rewrote it (244); a binary file gets the Index header and no hunks, and nothing is marked visited; any other file gets the Index header iff there are differences, force_empty is set or git format is used, the hunks iff there are differences or force_empty, and the rewritten path is marked visited once its header is written |
| DiffLogic.DiffCmdBaton.FileAdded | subversion/libsvn_client/diff.c:557-582 | an added file always gets its header, and its hunks even when empty unless it is binary; the content step marks the rewritten path and the property step looks up the path as given, so the property changes get a second header iff the path as given is not among the visited paths after the content step (a binary file whose path was not visited, or any file whose path relative_to_dir rewrote); it fails exactly when the content header or that second header fails on relative_to_dir, returning at once with force_empty still set; on success force_empty is off, the path as given is visited, and so is the rewritten path unless the file is binary |
| DiffLogic.ChildPath | subversion/libsvn_client/diff.c:217-218 | the child path is non-empty, relative, and joined below the directory gives the path back |
| DiffLogic.ChildPathOfJoin | subversion/libsvn_client/diff.c:217-218 | a relative child joined below a directory is found again as its child |
| DiffLogic.RelativeLabel | subversion/libsvn_client/diff.c:217-225 | a path below relative_to_dir becomes its relative part, the directory itself becomes ".", anything else is the bad-relative-path error naming both |
| DiffLogic.AdjustLabelPaths | subversion/libsvn_client/diff.c:214-243 | without relative_to_dir the labels are unchanged; with it, all three are rewritten, and the error is that of the first path that lies outside |
| DiffLogic.AdjustLabelPathsRoundTrip | subversion/libsvn_client/diff.c:214-243 | rewritten label paths joined back below relative_to_dir give the paths again |
| DiffLogic.UniqueLabelBelow | subversion/libsvn_client/diff.c:204-225 | a label built from a path below relative_to_dir lies below it too |
| DiffLogic.LabelsBelowDir | subversion/libsvn_client/diff.c:204-243 | a changed path below relative_to_dir never makes the label adjustment fail, whatever the original targets |
| DiffLogic.SameTargetLabels | subversion/libsvn_client/diff.c:204-243 | with equal original targets (as at 1037-1038) the labels are the path itself, and they fail exactly when the path does |
| DiffLogic.RelativeLabelRenames | subversion/libsvn_client/diff.c:214-244 | a non-empty relative_to_dir rewrites a path below it to a shorter one, so the path the content step marks differs from the one the property step looks up |
| DiffLogic.DirItselfWithDistinctTargets | subversion/libsvn_client/diff.c:204-243 | with relative_to_dir a non-root directory that is the changed path itself, and distinct original targets, a label ends in the tab and unique part, is neither below the directory nor the directory, and fails |
| DiffLogic.CheckPaths | subversion/libsvn_client/diff.c:693-719 | a pegged diff with both revisions local fails with the bad-revision error; otherwise each side is in the repository iff its revision is not local or its path is a URL |
| DiffLogic.PegOnlyRejects | subversion/libsvn_client/diff.c:702-719 | the peg revision only adds the error; when it succeeds, the sides are those of the unpegged diff |
| DiffLogic.DiffDispatch | subversion/libsvn_client/diff.c:951-965 | repos-repos iff both sides are in the repository; wc-wc iff neither is; repos-wc is reversed iff the repository side is the second one |
| DiffLogic.DiffDispatchMirror | subversion/libsvn_client/diff.c:951-965 | swapping the sides reverses a repos-wc diff and leaves the other kinds alone |
| DiffLogic.Summarize | subversion/libsvn_client/diff.c:981-992 | a summary proceeds iff check_paths succeeds and both sides are in the repository; otherwise it fails with bad-revision or unsupported-feature |
| DiffLogic.SummarizeOnlyReposRepos | subversion/libsvn_client/diff.c:981-992 | what can be summarized is exactly what the diff would compare repository to repository |

## Left out

- Streams, files and chunked reads. The whole input of `svn_subst_translate_stream3` is one string, and `translate_write` appends to the output string. The chunk loop and `buf[readlen] = '\0'` are left out. The `strcspn` loop that skips NULs is the search for the next interesting character, so a NUL is copied like any other character.
- Partial output before an error. On an inconsistent line ending the model returns only the error. The source has already written part of the output to the destination stream.
- `svn_subst_translate_stream` (subst.c:908-922) only creates and destroys a pool around `svn_subst_translate_stream2`, so it is `SubstTranslate.TranslateStream2`.
- `svn_subst_copy_and_translate*`, `detranslate_special_file` and `create_special_file`: temporary files, atomic renames and symbolic links.
- `svn_subst_translate_string` and `svn_subst_detranslate_string`: UTF-8 and locale conversion.
- Date formatting for %d and %D (`apr_time_exp_gmt`, `svn_time_to_human_cstring`) and the URI-decoded basename for %b. These are function parameters (`SubstKeywords.Formatters`) whose results are not interpreted. `keyword_printf` appends the author, url and revision as whole strings; a NUL inside one of them, which would end the C string, is not modelled.
- `svn_cstring_split` is not part of this model. `SubstKeywords.TokensFrom` reads it as the maximal runs of non-separator characters, which is what splitting with chop and dropping empty pieces gives.
- `SubstBuffer.Subst`: follows the corrected rule of the finding below, not subst.c:496-497 and 540-541 as written. It refuses a keyword name longer than SVN_KEYWORD_MAX_LEN - 5 and cuts an expanded value to SVN_KEYWORD_MAX_LEN - 5 - keyword length. Where the code as written does not overflow it differs too: contracting "$K: $" for a 251-character name K returns FALSE here, where the code returns TRUE with "$K$". `SubstBuffer.SubstAsWritten` is the rule as written.
- `SubstBuffer.TranslateKeywordSpec`: inherits the corrected rule of `SubstBuffer.Subst`, so a keyword name longer than SVN_KEYWORD_MAX_LEN - 5 is never translated.
- `SubstBuffer.KeywordBuffer.SubstKeyword`: applies the corrected rule of `SubstBuffer.Subst`, and returns FALSE for a keyword name longer than SVN_KEYWORD_MAX_LEN - 5 in every form.
- `SubstBuffer.KeywordBuffer.TranslateKeyword`: applies the corrected rule through `SubstKeyword`, with the same refusal of long names.
- `SubstStream.Step`: through `TranslateKeywordSpec`, a step that closes a keyword uses the corrected rule, so a keyword with a name longer than SVN_KEYWORD_MAX_LEN - 5 is written back unchanged.
- `SubstStream.Translate`: built from `Step`, it writes a keyword with a name longer than SVN_KEYWORD_MAX_LEN - 5 back unchanged, where subst.c as written would translate it.
- `SubstStream.TranslateStream`: is proved equal to `Translate`, so it too writes a keyword with a name longer than SVN_KEYWORD_MAX_LEN - 5 back unchanged.
- `SubstStreamLaws.UnclosedKeywordFlushed`: stated with eol_str absent; with eol_str given, `SubstStreamLaws.UnclosedKeywordAtEol` states the same flush followed by line-ending translation.
- `SubstStreamLaws.KeywordInText`: stated with eol_str absent. With eol_str also given, a keyword in a text that has line endings is covered only by `SubstStream.TranslateStream` being equal to `Translate` in every configuration.
- `SubstStreamLaws.KeywordThenRest`: stated with eol_str absent; with eol_str given, the text after the keyword would also have its line endings translated.
- `SubstStreamLaws.StreamExpands`: stated with eol_str absent; expanding a keyword in a text whose line endings are also translated is not stated as a law.
- `SubstStreamLaws.StreamContracts`: stated with eol_str absent; contracting a keyword in a text whose line endings are also translated is not stated as a law.
- `SubstStreamLaws.StreamExpandThenContract`: stated with eol_str absent; with eol_str given, the round trip returns the text with its line endings translated, which is not stated as a law.
- `SubstBuffer.KeywordBuffer.TranslateKeyword`: requires a buffer of at least two characters. With one character, the C bound `*len - 2` wraps around as an unsigned value. The stream never calls it on fewer than two.
- `SubstBuffer.KeywordBuffer.Expand`: the single character writes of an expansion are one spliced write of the whole "$keyword: value $".
- `keyword_name` in `translate_keyword` is not a separate array. The name is read from the buffer as the C string it would hold (`SubstBuffer.KeywordName`).
- The keyword names and `SVN_KEYWORD_MAX_LEN` live in `svn_types.h`, which is not part of this model. They are constants with Subversion's published values.
- `svn_subst_keywords_differ2` compares values with `svn_string_compare` and `svn_subst_keywords_differ` with `strcmp`. Both are string equality here; a NUL inside a value, which would end the `strcmp` early, is not modelled.
- `DiffLogic.MaybeAppendEol`: the appended form is `token + native eol`. `svn_string_createf("%s%s")` would cut a token at an embedded NUL; that is not modelled.
- `svn_dirent_is_child` and `svn_path_compare_paths` are not part of this model. `DiffLogic.ChildPath` reads the first on canonical '/'-separated paths, and the second is string equality.
- `svn_path_is_url` and the revision kinds are not part of this model. Whether a path is a URL and whether a revision is local are boolean inputs of `DiffLogic.CheckPaths`.
- Mergeinfo parsing and `display_mergeinfo_diff` are not part of this model. Whether a value parses as mergeinfo is the parameter `parsable`. Errors other than a parse failure are not modelled.
- All output writing, encoding conversion, the unified diff of property values (`svn_diff_mem_string_diff` and its output), RA sessions, `svn_client__repos_locations`, the anchor walk and the working-copy calls of `diff.c`. The model says what is written (headers, hunks, reports), not how.
- The external `diff_cmd` branch of `diff_content_changed` (diff.c:506-508) and the join of `anchor` with the path in the file callbacks (diff.c:558-559).
- `svn_mime_type_is_binary` is not part of this model. Whether either side of a file is binary is the boolean input `binary` of `DiffLogic.DiffCmdBaton.ContentChanged` and `FileAdded`; the lines of the cannot-display notice (diff.c:490-499) are not modelled, only that the header is written and no hunks follow.
- `DiffLogic.DiffCmdBaton.PropsChanged`: displays the property changes on every call that does not fail on relative_to_dir; any other condition under which `diff_props_changed` skips `display_prop_diffs` is not modelled.
- `svn_dirent_get_longest_ancestor` and `adjust_relative_to_repos_root` are not part of this model. The length of the longest common ancestor of the two original targets is the constructor input `ancestorLen` of `DiffLogic.DiffCmdBaton`. In git format the labels of the property header would be rewritten relative to the repository root first; the model always builds them from the original targets.

## Findings

| source | as written | input that shows it | evidently intended | confidence | as-written member | corrected member |
|---|---|---|---|---|---|---|
| subversion/libsvn_subr/subst.c:496-501 (and 540-545) | the expanded value is cut to SVN_KEYWORD_MAX_LEN - 5 characters whatever the keyword's length, so "$keyword: value $" can be up to SVN_KEYWORD_MAX_LEN + keyword length characters, written into the SVN_KEYWORD_MAX_LEN-byte keyword_buf | "$Rev$" expanded with a 250-character revision value gives 5 + 3 + 250 = 258 > 255 characters | the comment at subst.c:569-575 promises a result of at most SVN_KEYWORD_MAX_LEN: cut the value to SVN_KEYWORD_MAX_LEN - 5 - keyword length, and refuse a keyword longer than SVN_KEYWORD_MAX_LEN - 5 | high (not executed) | SubstBuffer.SubstAsWrittenOverflows | SubstBuffer.SubstFits |
