/**
 * The format choice of `extractTextFromFile`: the file's extension, lower-cased, or a MIME hint decides
 * whether it is read as PDF, as a Word document or as UTF-8 text. The parsers themselves are not modelled.
 */
module Extract {
  import opened Wrappers
  import opened Strings

  datatype Format = Pdf | Docx | PlainText

  /** `s.includes(sub)`. */
  predicate Includes(s: string, sub: string)
    decreases |s|
  {
    |sub| <= |s| && (s[..|sub|] == sub || (s != "" && Includes(s[1..], sub)))
  }

  /** `mimeHint?.includes(sub)`: false when there is no hint. */
  predicate HintIncludes(mimeHint: Option<string>, sub: string) {
    mimeHint.Some? && Includes(mimeHint.value, sub)
  }

  /** The branch `extractTextFromFile` takes for a file with extension `ext` (as `path.extname` gives it). */
  function ChooseFormat(ext: string, mimeHint: Option<string>): Format {
    var e := Lower(ext);
    if e == ".pdf" || HintIncludes(mimeHint, "pdf") then Pdf
    else if e == ".docx" || HintIncludes(mimeHint, "wordprocessingml.document") then Docx
    else PlainText
  }

  lemma LowerIdempotent(s: string)
    ensures Lower(Lower(s)) == Lower(s)
  {
  }

  /** The extension is compared without regard to ASCII case. */
  lemma ExtensionCaseInsensitive(ext: string, mimeHint: Option<string>)
    ensures ChooseFormat(Lower(ext), mimeHint) == ChooseFormat(ext, mimeHint)
  {
    LowerIdempotent(ext);
  }

  /** Without a hint, as the summarise route calls it, only the extension decides. */
  lemma RouteDispatch(ext: string)
    ensures ChooseFormat(ext, None) == Pdf <==> Lower(ext) == ".pdf"
    ensures ChooseFormat(ext, None) == Docx <==> Lower(ext) == ".docx"
    ensures ChooseFormat(ext, None) == PlainText <==> Lower(ext) != ".pdf" && Lower(ext) != ".docx"
  {
  }

  /** A PDF hint wins over any extension, a `.docx` one included. */
  lemma PdfHintWins(ext: string, hint: string)
    requires Includes(hint, "pdf")
    ensures ChooseFormat(ext, Some(hint)) == Pdf
  {
  }

  /** sub occurs in s starting at position i. */
  predicate OccursAt(s: string, sub: string, i: nat) {
    i + |sub| <= |s| && s[i..i + |sub|] == sub
  }

  lemma {:induction false} IncludesAt(s: string, sub: string, i: nat)
    requires OccursAt(s, sub, i)
    ensures Includes(s, sub)
    decreases i
  {
    if i > 0 {
      assert s[1..][i - 1..i - 1 + |sub|] == s[i..i + |sub|];
      IncludesAt(s[1..], sub, i - 1);
    }
  }

  lemma {:induction false} IncludesSomewhere(s: string, sub: string)
    requires Includes(s, sub)
    ensures exists i: nat :: OccursAt(s, sub, i)
    decreases |s|
  {
    if s[..|sub|] == sub {
      assert OccursAt(s, sub, 0);
    } else {
      IncludesSomewhere(s[1..], sub);
      var i: nat :| OccursAt(s[1..], sub, i);
      assert s[1..][i..i + |sub|] == s[i + 1..i + 1 + |sub|];
      assert OccursAt(s, sub, i + 1);
    }
  }

  /** `includes` finds sub exactly when it occurs at some position of s. */
  lemma IncludesIff(s: string, sub: string)
    ensures Includes(s, sub) <==> exists i: nat :: OccursAt(s, sub, i)
  {
    if Includes(s, sub) {
      IncludesSomewhere(s, sub);
    } else if exists i: nat :: OccursAt(s, sub, i) {
      var i: nat :| OccursAt(s, sub, i);
      IncludesAt(s, sub, i);
    }
  }
}
