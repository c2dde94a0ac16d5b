/** RDF terms, their canonical text and the parser of that text (cvcdocdb/jena_rdf.py). */
module RdfTerms {
  import opened Common

  const XSD_STRING := "http://www.w3.org/" + "2001/XMLSchema#string"

  datatype Term =
    | Uri(iri: string)
    | Literal(lexical: string, datatypeIri: Option<string>, lang: Option<string>)
    | Bnode(name: string)
    | Quoted(s: Term, p: Term, o: Term)

  datatype TermError = UnsupportedTerm | NotATerm | UnterminatedTripleTerm | TrailingText

  // --- Printing ------------------------------------------------------------

  function EscapeChar(c: char): string {
    match c
    case '\\' => "\\\\"
    case '"' => "\\\""
    case '\n' => "\\n"
    case '\r' => "\\r"
    case '\t' => "\\t"
    case _ => [c]
  }

  function Escape(text: string): string {
    if text == [] then [] else EscapeChar(text[0]) + Escape(text[1..])
  }

  /** A blank node has no canonical text (`term_to_string` raises). */
  predicate Printable(t: Term) {
    match t
    case Uri(_) => true
    case Literal(_, _, _) => true
    case Bnode(_) => false
    case Quoted(s, p, o) => Printable(s) && Printable(p) && Printable(o)
  }

  function Suffix(datatypeIri: Option<string>, lang: Option<string>): string {
    if lang.Some? && lang.value != "" then "@" + lang.value
    else if datatypeIri.Some? && datatypeIri.value != "" && datatypeIri.value != XSD_STRING then
      "^^<" + (datatypeIri.value + ">")
    else ""
  }

  function TermText(t: Term): (text: string)
    requires Printable(t)
  {
    match t
    case Uri(iri) => "<" + (iri + ">")
    case Literal(lexical, datatypeIri, lang) => "\"" + (Escape(lexical) + ("\"" + Suffix(datatypeIri, lang)))
    case Quoted(s, p, o) => "<<(" + (" " + (TermText(s) + (" " + (TermText(p) + (" " + (TermText(o) + " )>>"))))))
  }

  function TermToString(t: Term): Result<string, TermError> {
    if Printable(t) then Ok(TermText(t)) else Err(UnsupportedTerm)
  }

  // --- Parsing -------------------------------------------------------------

  predicate IsSpace(c: char) {
    c == ' ' || '\t' <= c <= '\r' || '\U{1C}' <= c <= '\U{1F}' || c == '\U{85}' || c == '\U{A0}'
    || c == '\U{1680}' || '\U{2000}' <= c <= '\U{200A}' || c == '\U{2028}' || c == '\U{2029}'
    || c == '\U{202F}' || c == '\U{205F}' || c == '\U{3000}'
  }

  predicate IsLangChar(c: char) {
    'A' <= c <= 'Z' || 'a' <= c <= 'z' || '0' <= c <= '9' || c == '-'
  }

  /** How many leading characters of `s` satisfy `p`. */
  function Span(s: string, p: char -> bool): (n: nat)
    ensures n <= |s| && (forall i | 0 <= i < n :: p(s[i])) && (n < |s| ==> !p(s[n]))
  {
    if s != [] && p(s[0]) then 1 + Span(s[1..], p) else 0
  }

  function SkipSpaces(s: string): (rest: string)
    ensures |rest| <= |s|
  {
    s[Span(s, IsSpace)..]
  }

  function UnescapeChar(c: char): char {
    match c
    case 'n' => '\n'
    case 'r' => '\r'
    case 't' => '\t'
    case _ => c
  }

  function Unescape(text: string): string {
    if text == [] then []
    else if text[0] == '\\' && |text| >= 2 && text[1] != '\n' then [UnescapeChar(text[1])] + Unescape(text[2..])
    else [text[0]] + Unescape(text[1..])
  }

  /** Where the quote that closes a string body stands, scanning from `i`. */
  function BodyEnd(s: string, i: nat): (n: Option<nat>)
    ensures n.Some? ==> i <= n.value < |s| && s[n.value] == '"'
    decreases |s| - i
  {
    if i >= |s| then None
    else if s[i] == '"' then Some(i)
    else if s[i] == '\\' then
      if i + 1 < |s| && s[i + 1] != '\n' then BodyEnd(s, i + 2) else None
    else BodyEnd(s, i + 1)
  }

  function ParseUri(text: string): (r: Result<(string, string), TermError>)
    ensures r.Ok? ==> |r.value.1| < |text|
  {
    var n := Span(text, c => c != '>');
    if n < |text| then Ok((text[..n], text[n + 1..])) else Err(NotATerm)
  }

  /** The optional language tag or datatype after a literal's closing quote. */
  function ParseSuffix(text: string): (r: (Option<string>, Option<string>, string))
    ensures |r.2| <= |text|
  {
    if |text| >= 2 && text[0] == '@' && IsLangChar(text[1]) then
      var n := Span(text[1..], IsLangChar);
      (None, Some(text[1..][..n]), text[1..][n..])
    else if "^^<" <= text then
      var r := ParseUri(text[3..]);
      if r.Ok? then (Some(r.value.0), None, r.value.1) else (None, None, text)
    else (None, None, text)
  }

  function ParseLiteral(text: string): (r: Result<(Term, string), TermError>)
    ensures r.Ok? ==> |r.value.1| < |text|
  {
    var n := BodyEnd(text, 0);
    if n.None? then Err(NotATerm)
    else
      var (datatypeIri, lang, rest) := ParseSuffix(text[n.value + 1..]);
      Ok((Literal(Unescape(text[..n.value]), datatypeIri, lang), rest))
  }

  /** A term that is not a triple term. */
  function ParseSimple(t: string): (r: Result<(Term, string), TermError>)
    ensures r.Ok? ==> |r.value.1| < |t|
  {
    if "<" <= t then
      var r := ParseUri(t[1..]);
      if r.Ok? then Ok((Uri(r.value.0), r.value.1)) else Err(NotATerm)
    else if "\"" <= t then ParseLiteral(t[1..])
    else if "_:" <= t && |t| > 2 && !IsSpace(t[2]) then
      var n := Span(t[2..], c => !IsSpace(c));
      Ok((Bnode(t[2..][..n]), t[2..][n..]))
    else Err(NotATerm)
  }

  /** A term with no space before it. */
  function ParseHere(t: string): (r: Result<(Term, string), TermError>)
    ensures r.Ok? ==> |r.value.1| < |t|
    decreases |t|, 0
  {
    if "<<(" <= t then
      var s := ParsePrefix(t[3..]);
      if s.Err? then s else
      var p := ParsePrefix(s.value.1);
      if p.Err? then p else
      var o := ParsePrefix(p.value.1);
      if o.Err? then o else
      var rest := SkipSpaces(o.value.1);
      if ")>>" <= rest then Ok((Quoted(s.value.0, p.value.0, o.value.0), rest[3..])) else Err(UnterminatedTripleTerm)
    else ParseSimple(t)
  }

  /** `_parse_term`: the term at the start of `text` and the text after it. */
  function ParsePrefix(text: string): (r: Result<(Term, string), TermError>)
    ensures r.Ok? ==> |r.value.1| < |text|
    decreases |text|, 1
  {
    ParseHere(SkipSpaces(text))
  }

  function ParseTerm(text: string): Result<Term, TermError> {
    var r := ParsePrefix(text);
    if r.Err? then Err(r.error)
    else if SkipSpaces(r.value.1) != [] then Err(TrailingText)
    else Ok(r.value.0)
  }

  // --- Printing and parsing undo each other --------------------------------

  predicate CanonicalIri(iri: string) {
    '>' !in iri && !("<(" <= iri)
  }

  predicate CanonicalSuffix(datatypeIri: Option<string>, lang: Option<string>) {
    && (lang.Some? ==> datatypeIri.None? && lang.value != "" && forall i | 0 <= i < |lang.value| :: IsLangChar(lang.value[i]))
    && (datatypeIri.Some? ==> datatypeIri.value != "" && datatypeIri.value != XSD_STRING && '>' !in datatypeIri.value)
  }

  /** The terms that survive printing: in particular an IRI may not begin with `<(`, which
      would read as the opening of a triple term. */
  predicate Canonical(t: Term) {
    match t
    case Uri(iri) => CanonicalIri(iri)
    case Literal(_, datatypeIri, lang) => CanonicalSuffix(datatypeIri, lang)
    case Bnode(_) => false
    case Quoted(s, p, o) => Canonical(s) && Canonical(p) && Canonical(o)
  }

  /** Text that may follow a term: nothing, or something set off by a space. */
  predicate Delimited(rest: string) {
    rest == [] || IsSpace(rest[0])
  }

  lemma {:induction false} SpanOf(a: string, rest: string, p: char -> bool)
    requires forall i | 0 <= i < |a| :: p(a[i])
    requires rest == [] || !p(rest[0])
    ensures Span(a + rest, p) == |a|
  {
    if a == [] {
      assert a + rest == rest;
    } else {
      SpanOf(a[1..], rest, p);
      assert (a + rest)[1..] == a[1..] + rest;
    }
  }

  lemma EscapedCharReads(c: char, rest: string)
    ensures Unescape(EscapeChar(c) + rest) == [c] + Unescape(rest)
  {
    var head := EscapeChar(c);
    assert (head + rest)[|head|..] == rest;
  }

  /** How one escaped character reads: on its own, or behind a backslash. */
  predicate BodyUnit(unit: string) {
    || (|unit| == 1 && unit[0] != '"' && unit[0] != '\\')
    || (|unit| == 2 && unit[0] == '\\' && unit[1] != '\n')
  }

  lemma EscapedUnit(c: char)
    ensures BodyUnit(EscapeChar(c))
  {
  }

  lemma UnitScanned(s: string, i: nat, unit: string)
    requires BodyUnit(unit) && i + |unit| <= |s| && s[i..i + |unit|] == unit
    ensures BodyEnd(s, i) == BodyEnd(s, i + |unit|)
  {
    assert s[i] == unit[0];
    if |unit| == 2 { assert s[i + 1] == unit[1]; }
  }

  lemma SliceOfSlice(s: string, i: nat, a: string, b: string)
    requires i + |a + b| <= |s| && s[i..i + |a + b|] == a + b
    ensures s[i..i + |a|] == a && s[i + |a|..i + |a| + |b|] == b
  {
    assert s[i..i + |a|] == (a + b)[..|a|];
    assert s[i + |a|..i + |a| + |b|] == (a + b)[|a|..];
  }

  /** The scan runs over an escaped text and stops at the quote after it. */
  lemma {:induction false} EscapedBody(text: string, s: string, i: nat)
    requires i + |Escape(text)| < |s| && s[i + |Escape(text)|] == '"'
    requires s[i..i + |Escape(text)|] == Escape(text)
    ensures BodyEnd(s, i) == Some(i + |Escape(text)|)
    decreases |text|
  {
    if text != [] {
      EscapedUnit(text[0]);
      hide BodyEnd, EscapeChar, BodyUnit;
      var head, tail := EscapeChar(text[0]), Escape(text[1..]);
      assert Escape(text) == head + tail;
      SliceOfSlice(s, i, head, tail);
      EscapedBody(text[1..], s, i + |head|);
      UnitScanned(s, i, head);
    }
  }

  lemma {:induction false} EscapeRoundTrip(text: string)
    ensures Unescape(Escape(text)) == text
  {
    if text != [] {
      EscapeRoundTrip(text[1..]);
      EscapedCharReads(text[0], Escape(text[1..]));
    }
  }

  lemma UriParses(iri: string, rest: string)
    requires '>' !in iri
    ensures ParseUri(iri + (">" + rest)) == Ok((iri, rest))
  {
    var text := iri + (">" + rest);
    SpanOf(iri, ">" + rest, c => c != '>');
    assert text[..|iri|] == iri;
    assert text[|iri| + 1..] == rest;
  }

  lemma LangParses(lang: string, rest: string)
    requires lang != "" && (forall i | 0 <= i < |lang| :: IsLangChar(lang[i])) && Delimited(rest)
    ensures ParseSuffix("@" + lang + rest) == (None, Some(lang), rest)
  {
    var text := "@" + lang + rest;
    assert text[1..] == lang + rest;
    assert text[1] == lang[0];
    SpanOf(lang, rest, IsLangChar);
    assert (lang + rest)[..|lang|] == lang;
    assert (lang + rest)[|lang|..] == rest;
  }

  lemma DatatypeParses(datatypeIri: string, rest: string)
    requires '>' !in datatypeIri
    ensures ParseSuffix("^^<" + (datatypeIri + ">") + rest) == (Some(datatypeIri), None, rest)
  {
    var text := "^^<" + (datatypeIri + ">") + rest;
    assert text[3..] == datatypeIri + (">" + rest);
    UriParses(datatypeIri, rest);
  }

  lemma SuffixParses(datatypeIri: Option<string>, lang: Option<string>, rest: string)
    requires CanonicalSuffix(datatypeIri, lang) && Delimited(rest)
    ensures ParseSuffix(Suffix(datatypeIri, lang) + rest) == (datatypeIri, lang, rest)
  {
    if lang.Some? {
      LangParses(lang.value, rest);
    } else if datatypeIri.Some? {
      DatatypeParses(datatypeIri.value, rest);
    } else {
      assert "" + rest == rest;
    }
  }

  lemma SpaceSkipped(text: string)
    ensures ParsePrefix(" " + text) == ParsePrefix(text)
  {
    assert (" " + text)[1..] == text;
    assert SkipSpaces(" " + text) == SkipSpaces(text);
  }

  lemma NoSpaceToSkip(text: string)
    requires text != [] && !IsSpace(text[0])
    ensures ParsePrefix(text) == ParseHere(text)
  {
    assert SkipSpaces(text) == text;
  }

  lemma BodyFound(lexical: string, tail: string)
    ensures var text := Escape(lexical) + ("\"" + tail);
            && BodyEnd(text, 0) == Some(|Escape(lexical)|)
            && text[..|Escape(lexical)|] == Escape(lexical)
            && text[|Escape(lexical)| + 1..] == tail
  {
    var text := Escape(lexical) + ("\"" + tail);
    assert text[0..|Escape(lexical)|] == Escape(lexical);
    EscapedBody(lexical, text, 0);
  }

  lemma BodyParses(lexical: string, tail: string)
    ensures ParseLiteral(Escape(lexical) + ("\"" + tail))
            == var (d, l, after) := ParseSuffix(tail); Ok((Literal(lexical, d, l), after))
  {
    BodyFound(lexical, tail);
    EscapeRoundTrip(lexical);
  }

  lemma QuoteReads(text: string)
    ensures ParsePrefix("\"" + text) == ParseLiteral(text)
  {
    NoSpaceToSkip("\"" + text);
    assert ("\"" + text)[1..] == text;
  }

  lemma LiteralText(lexical: string, datatypeIri: Option<string>, lang: Option<string>, rest: string)
    ensures ParsePrefix(TermText(Literal(lexical, datatypeIri, lang)) + rest)
            == var (d, l, after) := ParseSuffix(Suffix(datatypeIri, lang) + rest); Ok((Literal(lexical, d, l), after))
  {
    var suffix := Suffix(datatypeIri, lang);
    var body := Escape(lexical);
    assert ("\"" + (body + ("\"" + suffix))) + rest == "\"" + (body + ("\"" + (suffix + rest)));
    BodyParses(lexical, suffix + rest);
    QuoteReads(body + ("\"" + (suffix + rest)));
  }

  /** What stands after the object, the predicate and the subject of a printed triple term. */
  function AfterObject(rest: string): string {
    " )>>" + rest
  }

  function AfterPredicate(o: Term, rest: string): string
    requires Printable(o)
  {
    " " + (TermText(o) + AfterObject(rest))
  }

  function AfterSubject(p: Term, o: Term, rest: string): string
    requires Printable(p) && Printable(o)
  {
    " " + (TermText(p) + AfterPredicate(o, rest))
  }

  lemma QuotedText(s: Term, p: Term, o: Term, rest: string)
    requires Printable(s) && Printable(p) && Printable(o)
    ensures TermText(Quoted(s, p, o)) + rest == "<<(" + (" " + (TermText(s) + AfterSubject(p, o, rest)))
  {
    var u, v, w := TermText(s), TermText(p), TermText(o);
    Regroup(" " + (w + " )>>"), v, rest);
    Regroup(" " + (v + (" " + (w + " )>>"))), u, rest);
    Regroup(" )>>", w, rest);
  }

  lemma Regroup(inner: string, shown: string, rest: string)
    ensures (" " + (shown + inner)) + rest == " " + (shown + (inner + rest))
  {
  }

  /** Reading the text of a triple term is reading its three components in turn. */
  lemma QuotedReads(s: Term, p: Term, o: Term, rest: string)
    requires Printable(s) && Printable(p) && Printable(o)
    ensures var first := ParsePrefix(TermText(s) + AfterSubject(p, o, rest));
            var r := ParsePrefix(TermText(Quoted(s, p, o)) + rest);
            r == if first.Err? then first else
                 var second := ParsePrefix(first.value.1);
                 if second.Err? then second else
                 var third := ParsePrefix(second.value.1);
                 if third.Err? then third else
                 if ")>>" <= SkipSpaces(third.value.1)
                 then Ok((Quoted(first.value.0, second.value.0, third.value.0), SkipSpaces(third.value.1)[3..]))
                 else Err(UnterminatedTripleTerm)
  {
    var inner := " " + (TermText(s) + AfterSubject(p, o, rest));
    var text := TermText(Quoted(s, p, o)) + rest;
    QuotedText(s, p, o, rest);
    assert text == "<<(" + inner;
    assert text[3..] == inner;
    NoSpaceToSkip(text);
    SpaceSkipped(TermText(s) + AfterSubject(p, o, rest));
  }

  lemma ClosingFound(rest: string)
    ensures SkipSpaces(AfterObject(rest)) == ")>>" + rest
    ensures (")>>" + rest)[3..] == rest
  {
    assert AfterObject(rest)[1..] == ")>>" + rest;
    assert Span(")>>" + rest, IsSpace) == 0;
  }

  lemma UriReads(iri: string, rest: string)
    requires !("<(" <= iri)
    ensures ParsePrefix(TermText(Uri(iri)) + rest)
            == var r := ParseUri(iri + (">" + rest)); if r.Ok? then Ok((Uri(r.value.0), r.value.1)) else Err(NotATerm)
  {
    var text := TermText(Uri(iri)) + rest;
    assert text[1..] == iri + (">" + rest);
    NoSpaceToSkip(text);
    OpeningOfUri(iri, rest);
  }

  lemma OpeningReads(text: string)
    requires "<<(" <= text && ParsePrefix(text).Ok?
    ensures ParsePrefix(text).value.0.Quoted?
  {
    NoSpaceToSkip(text);
  }

  lemma OpeningOfUri(iri: string, rest: string)
    ensures "<<(" <= TermText(Uri(iri)) + rest <==> "<(" <= iri
  {
    var text := TermText(Uri(iri)) + rest;
    if |iri| >= 2 {
      assert text[1] == iri[0] && text[2] == iri[1];
    } else if |iri| == 1 {
      assert text[2] == '>';
    } else {
      assert text[1] == '>';
    }
  }

  lemma {:induction false} ParsePrinted(t: Term, rest: string)
    requires Canonical(t) && Delimited(rest)
    ensures Printable(t) && ParsePrefix(TermText(t) + rest) == Ok((t, rest))
    decreases t
  {
    match t
    case Uri(iri) =>
      UriReads(iri, rest);
      UriParses(iri, rest);
    case Literal(lexical, datatypeIri, lang) =>
      LiteralText(lexical, datatypeIri, lang, rest);
      SuffixParses(datatypeIri, lang, rest);
    case Quoted(s, p, o) =>
      ParsePrinted(o, AfterObject(rest));
      ParsePrinted(p, AfterPredicate(o, rest));
      ParsePrinted(s, AfterSubject(p, o, rest));
      QuotedReads(s, p, o, rest);
      SpaceSkipped(TermText(p) + AfterPredicate(o, rest));
      SpaceSkipped(TermText(o) + AfterObject(rest));
      ClosingFound(rest);
  }

  /** Only a canonical term is ever read back from its own text. */
  lemma {:induction false} ReadBackIsCanonical(t: Term, rest: string)
    requires Printable(t) && Delimited(rest)
    requires ParsePrefix(TermText(t) + rest).Ok? && ParsePrefix(TermText(t) + rest).value.0 == t
    ensures Canonical(t)
    decreases t
  {
    match t
    case Uri(iri) =>
      OpeningOfUri(iri, rest);
      if "<(" <= iri {
        OpeningReads(TermText(t) + rest);
        assert false;
      }
      UriReads(iri, rest);
    case Literal(lexical, datatypeIri, lang) =>
      LiteralText(lexical, datatypeIri, lang, rest);
      ReadBackSuffix(datatypeIri, lang, rest);
    case Quoted(s, p, o) =>
      QuotedReads(s, p, o, rest);
      SpaceSkipped(TermText(p) + AfterPredicate(o, rest));
      SpaceSkipped(TermText(o) + AfterObject(rest));
      ReadBackIsCanonical(s, AfterSubject(p, o, rest));
      ParsePrinted(s, AfterSubject(p, o, rest));
      ReadBackIsCanonical(p, AfterPredicate(o, rest));
      ParsePrinted(p, AfterPredicate(o, rest));
      ReadBackIsCanonical(o, AfterObject(rest));
  }

  /** What a suffix parser returns is a canonical suffix, `xsd:string` and the empty datatype apart. */
  lemma ParsedSuffix(text: string)
    ensures var (d, l, _) := ParseSuffix(text);
            && (l.Some? ==> d.None? && l.value != "" && forall i | 0 <= i < |l.value| :: IsLangChar(l.value[i]))
            && (d.Some? ==> "^^<" <= text && '>' !in d.value)
  {
  }

  lemma ReadBackSuffix(datatypeIri: Option<string>, lang: Option<string>, rest: string)
    requires Delimited(rest)
    requires ParseSuffix(Suffix(datatypeIri, lang) + rest).0 == datatypeIri
    requires ParseSuffix(Suffix(datatypeIri, lang) + rest).1 == lang
    ensures CanonicalSuffix(datatypeIri, lang)
  {
    ParsedSuffix(Suffix(datatypeIri, lang) + rest);
    if Suffix(datatypeIri, lang) == "" {
      assert "" + rest == rest;
    }
  }

  /** `parse_term(term_to_string(t)) == t` exactly for the canonical terms. */
  lemma TermRoundTrip(t: Term)
    ensures (TermToString(t).Ok? && ParseTerm(TermToString(t).value) == Ok(t)) <==> Canonical(t)
  {
    if Canonical(t) {
      ParsePrinted(t, []);
      assert TermText(t) + [] == TermText(t);
    } else if Printable(t) && ParseTerm(TermText(t)) == Ok(t) {
      assert TermText(t) + [] == TermText(t);
      ReadBackIsCanonical(t, []);
    }
  }

  /** No two canonical terms share a text, so triples may be compared by it. */
  lemma TextsAreUnique(t: Term, u: Term)
    requires Canonical(t) && Canonical(u) && TermToString(t) == TermToString(u)
    ensures t == u
  {
    TermRoundTrip(t);
    TermRoundTrip(u);
  }
}
