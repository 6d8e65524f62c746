/**
 * The text input's id and accessibility wiring: the id comes from the `id`
 * prop or is derived from the label; `aria-invalid` and `aria-describedby`
 * (WAI-ARIA 1.2) point at the error or hint paragraph that is rendered.
 */
module Input {
  import opened Wrappers
  import opened Text

  /** The props that decide the wiring; an absent prop is `None`. */
  datatype InputProps = InputProps(id: Option<string>, labelText: Option<string>, error: Option<string>, hint: Option<string>)

  /** JavaScript truthiness of an optional string: present and not empty. */
  predicate Truthy(s: Option<string>) {
    s.Some? && s.value != ""
  }

  /** `s.replace(/\s/g, '-')` */
  function ReplaceSpaces(s: string): (r: string)
    ensures |r| == |s|
  {
    seq(|s|, k requires 0 <= k < |s| => if s[k] in JsSpaces then '-' else s[k])
  }

  /** `label.toLowerCase().replace(/\s/g, '-')` for the label text `caption` */
  function DeriveId(caption: string): string {
    ReplaceSpaces(Lower(caption))
  }

  /** `id || label?.toLowerCase().replace(/\s/g, '-')`: None when neither gives a value. */
  function InputId(p: InputProps): Option<string> {
    if Truthy(p.id) then p.id
    else if p.labelText.Some? then Some(DeriveId(p.labelText.value))
    else None
  }

  /** The id as a template literal shows it: an absent id reads "undefined". */
  function IdText(id: Option<string>): string {
    if id.Some? then id.value else "undefined"
  }

  /** `hasError`, also the value of `aria-invalid`. */
  predicate HasError(p: InputProps) {
    Truthy(p.error)
  }

  function ErrorParagraphId(p: InputProps): string {
    IdText(InputId(p)) + "-error"
  }

  function HintParagraphId(p: InputProps): string {
    IdText(InputId(p)) + "-hint"
  }

  /** `aria-describedby`: the error paragraph, else the hint paragraph, else absent. */
  function DescribedBy(p: InputProps): Option<string> {
    if HasError(p) then Some(ErrorParagraphId(p))
    else if Truthy(p.hint) then Some(HintParagraphId(p))
    else None
  }

  /** `{label && <label …>}` */
  predicate ShowsLabel(p: InputProps) {
    Truthy(p.labelText)
  }

  /** `{error && <p …>}` */
  predicate ShowsError(p: InputProps) {
    Truthy(p.error)
  }

  /** `{hint && !error && <p …>}` */
  predicate ShowsHint(p: InputProps) {
    Truthy(p.hint) && !Truthy(p.error)
  }

  // ---------------------------------------------------------------------
  // Properties.
  // ---------------------------------------------------------------------

  /** A non-empty `id` prop is used as given. */
  lemma IdPropWins(p: InputProps)
    requires Truthy(p.id)
    ensures InputId(p) == p.id
  {
  }

  /** Without an `id` prop the id comes from the label, and there is none without a label either. */
  lemma IdFromLabel(p: InputProps)
    requires !Truthy(p.id)
    ensures p.labelText.None? <==> InputId(p).None?
    ensures p.labelText.Some? ==> InputId(p) == Some(DeriveId(p.labelText.value))
  {
  }

  /** Lower-casing an ASCII letter never makes or removes whitespace. */
  lemma LowerKeepsSpaces(c: char)
    ensures LowerChar(c) in JsSpaces <==> c in JsSpaces
  {
    if 'A' <= c <= 'Z' {
      assert c !in JsSpaces;
      assert 'a' <= LowerChar(c) <= 'z';
      assert LowerChar(c) !in JsSpaces;
    }
  }

  /**
   * The derived id has the label's length, contains no whitespace, and is the
   * label lower-cased with exactly its whitespace turned into hyphens.
   */
  lemma DerivedIdShape(caption: string)
    ensures var d := DeriveId(caption);
      |d| == |caption| &&
      (forall k :: 0 <= k < |d| ==> d[k] !in JsSpaces) &&
      (forall k :: 0 <= k < |d| ==> d[k] == if caption[k] in JsSpaces then '-' else LowerChar(caption[k]))
  {
    var d := DeriveId(caption);
    assert '-' !in JsSpaces;
    forall k | 0 <= k < |d|
      ensures d[k] == if caption[k] in JsSpaces then '-' else LowerChar(caption[k])
    {
      LowerKeepsSpaces(caption[k]);
    }
  }

  /** Deriving an id from a derived id changes nothing. */
  lemma DeriveIdIdempotent(caption: string)
    ensures DeriveId(DeriveId(caption)) == DeriveId(caption)
  {
    var d := DeriveId(caption);
    DerivedIdShape(caption);
    DerivedIdShape(d);
    forall k | 0 <= k < |d| ensures DeriveId(d)[k] == d[k] {
      assert d[k] !in JsSpaces;
      assert LowerChar(d[k]) == d[k];
    }
  }

  lemma LettersAreNotSpaces(c: char)
    requires 'A' <= c <= 'Z' || 'a' <= c <= 'z'
    ensures c !in JsSpaces
  {
  }

  /** "First Name" gives the id "first-name". */
  lemma DeriveIdExample()
    ensures DeriveId("First Name") == "first-name"
  {
    var c := "First Name";
    var d := DeriveId(c);
    DerivedIdShape(c);
    assert ' ' in JsSpaces;
    forall k | 0 <= k < |d| ensures d[k] == "first-name"[k] {
      if k != 5 {
        LettersAreNotSpaces(c[k]);
      }
    }
  }

  /** `aria-invalid` is set exactly for a non-empty error. */
  lemma InvalidIffError(p: InputProps)
    ensures HasError(p) <==> p.error.Some? && |p.error.value| > 0
  {
  }

  /**
   * `aria-describedby` names a paragraph exactly when one is rendered, and it
   * names that paragraph: the error one when there is an error, otherwise the hint.
   */
  lemma DescribedByNamesRenderedParagraph(p: InputProps)
    ensures DescribedBy(p).Some? <==> ShowsError(p) || ShowsHint(p)
    ensures ShowsError(p) ==> DescribedBy(p) == Some(IdText(InputId(p)) + "-error")
    ensures ShowsHint(p) ==> DescribedBy(p) == Some(IdText(InputId(p)) + "-hint")
  {
  }

  /** At most one of the error and hint paragraphs renders. */
  lemma AtMostOneParagraph(p: InputProps)
    ensures !(ShowsError(p) && ShowsHint(p))
  {
  }

  /** An error without any id or label points at "undefined-error". */
  lemma NoIdNoLabel(error: string)
    requires error != ""
    ensures DescribedBy(InputProps(None, None, Some(error), None)) == Some("undefined-error")
  {
    assert "undefined" + "-error" == "undefined-error";
  }
}
