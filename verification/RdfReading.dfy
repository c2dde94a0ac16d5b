/** What is written to the SPARQL store, character by character, and what any rows that come back are
    read as (cvcdocdb/jena_rdf.py). */
module RdfReading {
  import opened Common
  import opened Decimals
  import opened PercentEncoding
  import opened RdfTerms
  import opened RdfMapping
  import opened RdfState
  import opened JenaGraph
  import opened Values

  // --- Names in IRIs -------------------------------------------------------

  /** The number that the bytes carry: what the first has above its marker, then six bits each. */
  function Carried(b: seq<Byte>, marker: int): int {
    if |b| == 0 then 0
    else if |b| == 1 then b[0] as int - marker
    else Carried(b[..|b| - 1], marker) * 64 + (b[|b| - 1] as int - 0x80)
  }

  /** The bytes of a character, after section 3 of RFC 3629: how many, which lead, and what they carry. */
  lemma Utf8Table(c: char)
    ensures var b, n := Utf8Char(c), c as int;
            && (n <= 0x7F ==> b == [n])
            && (0x80 <= n <= 0x7FF ==> |b| == 2 && 0xC2 <= b[0] <= 0xDF && n == Carried(b, 0xC0))
            && (0x800 <= n <= 0xFFFF ==> |b| == 3 && 0xE0 <= b[0] <= 0xEF && n == Carried(b, 0xE0))
            && (0x10000 <= n ==> |b| == 4 && 0xF0 <= b[0] <= 0xF4 && n == Carried(b, 0xF0))
            && forall i | 0 < i < |b| :: 0x80 <= b[i] <= 0xBF
  {
    var n, b := c as int, Utf8Char(c);
    CarriedTwo(b);
    if 0x800 <= n < 0x10000 {
      ThreeBytes(c);
    } else if 0x10000 <= n {
      FourBytes(c);
    }
  }

  lemma ThreeBytes(c: char)
    requires 0x800 <= c as int < 0x10000
    ensures var b := Utf8Char(c);
            c as int == ((b[0] as int - 0xE0) * 64 + (b[1] as int - 0x80)) * 64 + (b[2] as int - 0x80)
  {
    var n := c as int;
    SixBits(n);
    SixBits(n / 0x40);
    assert n / 0x40 / 0x40 == n / 0x1000;
  }

  lemma SixBits(n: nat)
    ensures n == n / 0x40 * 64 + n % 0x40
  {
  }

  lemma FourBytes(c: char)
    requires 0x10000 <= c as int
    ensures var b := Utf8Char(c);
            c as int == (((b[0] as int - 0xF0) * 64 + (b[1] as int - 0x80)) * 64 + (b[2] as int - 0x80)) * 64 + (b[3] as int - 0x80)
  {
    var n := c as int;
    SixBits(n);
    SixBits(n / 0x40);
    SixBits(n / 0x1000);
    assert n / 0x40 / 0x40 == n / 0x1000;
    assert n / 0x1000 / 0x40 == n / 0x40000;
  }

  lemma CarriedTwo(b: seq<Byte>)
    ensures |b| == 2 ==> Carried(b, 0xC0) == (b[0] as int - 0xC0) * 64 + (b[1] as int - 0x80)
    ensures |b| == 3 ==> Carried(b, 0xE0) == ((b[0] as int - 0xE0) * 64 + (b[1] as int - 0x80)) * 64 + (b[2] as int - 0x80)
    ensures |b| == 4 ==>
              Carried(b, 0xF0) == (((b[0] as int - 0xF0) * 64 + (b[1] as int - 0x80)) * 64 + (b[2] as int - 0x80)) * 64 + (b[3] as int - 0x80)
  {
    if |b| >= 2 {
      var m := if |b| == 2 then 0xC0 else if |b| == 3 then 0xE0 else 0xF0;
      assert Carried(b[..1], m) == b[0] as int - m;
      if |b| >= 3 {
        assert b[..2][..1] == b[..1];
        if |b| >= 4 { assert b[..3][..2] == b[..2]; }
      }
    }
  }

  /** A name is encoded character by character. */
  lemma {:induction false} QuoteParts(a: string, b: string)
    ensures Quote(a + b) == Quote(a) + Quote(b)
  {
    Utf8Parts(a, b);
    EscapedParts(Utf8Encode(a), Utf8Encode(b));
  }

  lemma {:induction false} Utf8Parts(a: string, b: string)
    ensures Utf8Encode(a + b) == Utf8Encode(a) + Utf8Encode(b)
  {
    if a == [] {
      assert a + b == b;
    } else {
      assert (a + b)[0] == a[0] && (a + b)[1..] == a[1..] + b;
      Utf8Parts(a[1..], b);
    }
  }

  lemma {:induction false} EscapedParts(a: seq<Byte>, b: seq<Byte>)
    ensures EscapeBytes(a + b) == EscapeBytes(a) + EscapeBytes(b)
  {
    if a == [] {
      assert a + b == b;
    } else {
      assert (a + b)[0] == a[0] && (a + b)[1..] == a[1..] + b;
      EscapedParts(a[1..], b);
    }
  }

  const HEX := "0123456789ABCDEF"

  /** Letters, digits and four signs stand for themselves; every other byte is `%` and two upper-case
      hexadecimal digits. */
  lemma QuoteChar(c: char)
    ensures 'A' <= c <= 'Z' || 'a' <= c <= 'z' || '0' <= c <= '9' || c == '_' || c == '.' || c == '-' || c == '~' ==> Quote([c]) == [c]
    ensures !('A' <= c <= 'Z' || 'a' <= c <= 'z' || '0' <= c <= '9' || c == '_' || c == '.' || c == '-' || c == '~') ==>
              |Quote([c])| == 3 * |Utf8Char(c)| && forall i: nat | i < |Utf8Char(c)| :: WrittenAt(Quote([c]), Utf8Char(c), i)
  {
    assert [c][1..] == [];
    assert Utf8Encode([c]) == Utf8Char(c);
    Utf8Table(c);
    if Unreserved(c) {
      var b: Byte := c as int;
      assert Utf8Char(c) == [b] && [b][1..] == [];
      assert EscapeByte(b) == [c] && EscapeBytes([]) == [];
      assert EscapeBytes([b]) == [c] + [];
    } else {
      EscapedAll(Utf8Char(c));
    }
  }

  lemma HexDigits(d: nat)
    requires d < 16
    ensures HexDigit(d) == HEX[d]
  {
    assert HEX[0] == '0' && HEX[1] == '1' && HEX[2] == '2' && HEX[3] == '3' && HEX[4] == '4' && HEX[5] == '5' && HEX[6] == '6' && HEX[7] == '7';
    assert HEX[8] == '8' && HEX[9] == '9' && HEX[10] == 'A' && HEX[11] == 'B' && HEX[12] == 'C' && HEX[13] == 'D' && HEX[14] == 'E' && HEX[15] == 'F';
  }

  /** Byte `i` is written as `%` and its two digits. */
  predicate WrittenAt(text: string, b: seq<Byte>, i: nat)
    requires i < |b|
  {
    3 * i + 2 < |text| && text[3 * i] == '%' && text[3 * i + 1] == HEX[b[i] / 16] && text[3 * i + 2] == HEX[b[i] % 16]
  }

  lemma {:induction false} EscapedAll(b: seq<Byte>)
    requires forall i | 0 <= i < |b| :: b[i] >= 0x80 || !Unreserved(b[i] as char)
    ensures |EscapeBytes(b)| == 3 * |b| && forall i: nat | i < |b| :: WrittenAt(EscapeBytes(b), b, i)
  {
    if b != [] {
      EscapedAll(b[1..]);
      HexDigits(b[0] / 16);
      HexDigits(b[0] % 16);
      var text, rest := EscapeBytes(b), EscapeBytes(b[1..]);
      assert text == EscapeByte(b[0]) + rest && |EscapeByte(b[0])| == 3;
      assert WrittenAt(text, b, 0);
      hide *;
      forall i: nat | 0 < i < |b| ensures WrittenAt(text, b, i) { WrittenLater(EscapeByte(b[0]), rest, b, i); }
    }
  }

  lemma WrittenLater(head: string, rest: string, b: seq<Byte>, i: nat)
    requires |head| == 3 && 0 < i < |b| && WrittenAt(rest, b[1..], i - 1)
    ensures WrittenAt(head + rest, b, i)
  {
    assert (head + rest)[3 * i] == rest[3 * (i - 1)] && (head + rest)[3 * i + 1] == rest[3 * (i - 1) + 1];
    assert (head + rest)[3 * i + 2] == rest[3 * (i - 1) + 2];
  }

  // --- Terms as text -------------------------------------------------------

  /** The text of a literal is escaped character by character: quotes, backslashes and three kinds of
      white space, and nothing else. */
  lemma {:induction false} EscapedText(a: string, b: string, c: char)
    ensures Escape(a + b) == Escape(a) + Escape(b)
    ensures Escape("\"") == "\\" + "\"" && Escape("\\") == "\\" + "\\"
    ensures Escape("\n") == "\\" + "n" && Escape("\r") == "\\" + "r" && Escape("\t") == "\\" + "t"
    ensures c != '"' && c != '\\' && c != '\n' && c != '\r' && c != '\t' ==> Escape([c]) == [c]
  {
    assert [c][1..] == [] && "\""[1..] == [] && "\\"[1..] == [] && "\n"[1..] == [] && "\r"[1..] == [] && "\t"[1..] == [];
    if a == [] {
      assert a + b == b;
    } else {
      assert (a + b)[0] == a[0] && (a + b)[1..] == a[1..] + b;
      EscapedText(a[1..], b, c);
    }
  }

  /** A literal's text. */
  lemma LiteralText(lexical: string, iri: string)
    requires iri != "" && iri != XSD_STRING
    ensures TermText(Literal(lexical, None, None)) == "\"" + Escape(lexical) + "\""
    ensures TermText(Literal(lexical, Some(iri), None)) == "\"" + Escape(lexical) + "\"^^<" + iri + ">"
    ensures TermText(Uri(iri)) == "<" + iri + ">"
  {
    hide Escape;
    assert "\"" + (Escape(lexical) + ("\"" + "")) == "\"" + Escape(lexical) + "\"";
    assert "\"" + (Escape(lexical) + ("\"" + ("^^<" + (iri + ">")))) == "\"" + Escape(lexical) + "\"^^<" + iri + ">";
  }

  /** Values are written as plain literals or with a standard datatype. */
  lemma ValueTexts(json: JsonCodec, v: Value)
    ensures var w3c, t := "http://www.w3.org/", EncodeValue(json, v);
            && (v.Str? ==> t == Literal(v.s, None, None))
            && (v.Int? ==> t == Literal(ShowInt(v.i), Some(w3c + "2001/XMLSchema#" + "integer"), None))
            && (v.Bool? ==> t == Literal(if v.b then "true" else "false", Some(w3c + "2001/XMLSchema#" + "boolean"), None))
            && (v.Float? ==> t == Literal(v.text, Some(w3c + "2001/XMLSchema#" + "double"), None))
            && (v.DateTime? ==> t == Literal(v.iso, Some(w3c + "2001/XMLSchema#" + "dateTime"), None))
            && (v.Date? ==> t == Literal(v.iso, Some(w3c + "2001/XMLSchema#" + "date"), None))
            && (v.Null? || v.List? || v.Dict? ==> t == Literal(json.dumps(v), Some(w3c + "1999/02/22-rdf-syntax-ns#" + "JSON"), None))
  {
  }

  /** White space before a term is skipped. */
  lemma SpacesIgnored(c: char, text: string)
    requires c == ' ' || c == '\t' || c == '\n' || c == '\r'
    ensures ParsePrefix([c] + text) == ParsePrefix(text)
  {
    assert ([c] + text)[1..] == text;
    assert Span([c] + text, IsSpace) == 1 + Span(text, IsSpace);
    assert ([c] + text)[1 + Span(text, IsSpace)..] == text[Span(text, IsSpace)..];
  }

  /** White space may follow a term, and nothing else. */
  lemma TrailingTextIsRefused(t: Term, rest: string)
    requires Canonical(t) && Delimited(rest)
    ensures Printable(t)
    ensures ParseTerm(TermText(t) + rest) == if forall i | 0 <= i < |rest| :: IsSpace(rest[i]) then Ok(t) else Err(TrailingText)
  {
    ParsePrinted(t, rest);
    hide ParsePrefix, TermText, Canonical;
    if forall i | 0 <= i < |rest| :: IsSpace(rest[i]) {
      SpanOf(rest, [], IsSpace);
      assert rest + [] == rest;
    } else {
      var i :| 0 <= i < |rest| && !IsSpace(rest[i]);
      assert Span(rest, IsSpace) <= i;
    }
  }

  /** A blank node is read, but has no canonical text. */
  lemma BlankNodes(name: string)
    requires name != [] && forall i | 0 <= i < |name| :: !IsSpace(name[i])
    ensures ParseTerm("_:" + name) == Ok(Bnode(name)) && TermToString(Bnode(name)) == Err(UnsupportedTerm)
  {
    var text := "_:" + name;
    NoSpaceToSkip(text);
    SpanOf(name, [], c => !IsSpace(c));
    assert name + [] == name && text[2..] == name && text[2] == name[0];
    assert text[0] == '_' && !("<" <= text) && !("\"" <= text) && !("<<(" <= text);
    assert ParseSimple(text) == Ok((Bnode(name), []));
  }

  // --- The triples of a state ----------------------------------------------

  function Name(ns: string, kind: string, local: string): Term {
    Uri(ns + kind + "/" + local)
  }

  function RdfName(local: string): Term {
    Uri("http://www.w3.org/" + "1999/02/22-rdf-syntax-ns#" + local)
  }

  function NodeName(ns: string, id: nat): Term {
    Name(ns, "node", ShowNat(id))
  }

  function EdgeName(ns: string, e: EdgeKey): Term {
    Name(ns, "edge", ShowNat(e.0) + "/" + ShowNat(e.1) + "/" + Quote(e.2))
  }

  /** What is written about a node: its labels as classes, its bookkeeping, and its properties. */
  predicate AboutNode(ns: string, json: JsonCodec, id: nat, a: NodeAttrs, t: Triple) {
    && t.s == NodeName(ns, id)
    && (|| (exists name :: name in a.labels && t.p == RdfName("type") && t.o == Name(ns, "label", Quote(name)))
        || (t.p == Name(ns, "meta", "mainLabel") && t.o == EncodeValue(json, a.mainLabel))
        || (t.p == Name(ns, "meta", "labels") && t.o == EncodeValue(json, LabelValue(a.labels)))
        || (t.p == Name(ns, "meta", "pk") && t.o == EncodeValue(json, a.pk))
        || (exists name :: name in a.props && t.p == Name(ns, "prop", Quote(name)) && t.o == EncodeValue(json, a.props[name])))
  }

  /** ... about a relation: itself, its reifier, and the reifier's properties ... */
  predicate AboutEdge(ns: string, json: JsonCodec, e: EdgeKey, props: map<string, Value>, t: Triple) {
    var base := (NodeName(ns, e.0), Name(ns, "rel", Quote(e.2)), NodeName(ns, e.1));
    || (t.s, t.p, t.o) == base
    || (t.s == EdgeName(ns, e) && t.p == RdfName("reifies") && t.o == Quoted(base.0, base.1, base.2))
    || (t.s == EdgeName(ns, e) && exists name :: name in props && t.p == Name(ns, "prop", Quote(name)) && t.o == EncodeValue(json, props[name]))
  }

  /** ... and about the state. */
  predicate AboutState(ns: string, json: JsonCodec, s: GraphState, t: Triple) {
    && t.s == Name(ns, "meta", "state")
    && (|| (t.p == Name(ns, "meta", "nodeCounter") && t.o == EncodeValue(json, Int(s.counter)))
        || (t.p == Name(ns, "meta", "stateVersion") && t.o == EncodeValue(json, s.version)))
  }

  lemma NamesAre(ns: string, kind: string, local: string, e: EdgeKey)
    ensures Uri(Iri(ns, kind, local)) == Name(ns, kind, local)
    ensures EdgeTerm(ns, e) == EdgeName(ns, e) && NodeTerm(ns, e.0) == NodeName(ns, e.0) && NodeTerm(ns, e.1) == NodeName(ns, e.1)
    ensures Uri(RelIri(ns, e.2)) == Name(ns, "rel", Quote(e.2))
  {
    assert ns + (kind + ("/" + local)) == ns + kind + "/" + local;
    var path := ShowNat(e.0) + ("/" + (ShowNat(e.1) + ("/" + Quote(e.2))));
    assert path == ShowNat(e.0) + "/" + ShowNat(e.1) + "/" + Quote(e.2);
    assert ns + ("edge" + ("/" + path)) == ns + "edge" + "/" + path;
    assert ns + ("node" + ("/" + ShowNat(e.0))) == ns + "node" + "/" + ShowNat(e.0);
    assert ns + ("node" + ("/" + ShowNat(e.1))) == ns + "node" + "/" + ShowNat(e.1);
    assert ns + ("rel" + ("/" + Quote(e.2))) == ns + "rel" + "/" + Quote(e.2);
  }

  /** A state is written as exactly these triples. */
  lemma TriplesAre(ns: string, json: JsonCodec, s: GraphState, t: Triple)
    ensures t in Triples(ns, json, s) <==>
            || (exists id: nat :: id in s.nodes && AboutNode(ns, json, id, s.nodes[id], t))
            || (exists e: EdgeKey :: e in s.edges && AboutEdge(ns, json, e, s.edges[e], t))
            || AboutState(ns, json, s, t)
  {
    forall id: nat | id in s.nodes ensures t in NodeTriples(ns, json, id, s.nodes[id]) <==> AboutNode(ns, json, id, s.nodes[id], t) {
      NodeTriplesAre(ns, json, id, s.nodes[id], t);
    }
    forall e: EdgeKey | e in s.edges ensures t in EdgeTriples(ns, json, e, s.edges[e]) <==> AboutEdge(ns, json, e, s.edges[e], t) {
      EdgeTriplesAre(ns, json, e, s.edges[e], t);
    }
    StateTriplesAre(ns, json, s, t);
    hide NodeTriples, EdgeTriples, MetaTriples, AboutNode, AboutEdge, AboutState;
  }

  lemma NodeTriplesAre(ns: string, json: JsonCodec, id: nat, a: NodeAttrs, t: Triple)
    ensures t in NodeTriples(ns, json, id, a) <==> AboutNode(ns, json, id, a, t)
  {
    hide EncodeValue, Quote, ShowNat, Iri, Name;
    NamesAre(ns, "node", ShowNat(id), (id, id, ""));
    NamesAre(ns, "meta", "mainLabel", (id, id, ""));
    NamesAre(ns, "meta", "labels", (id, id, ""));
    NamesAre(ns, "meta", "pk", (id, id, ""));
    forall name ensures Uri(LabelIri(ns, name)) == Name(ns, "label", Quote(name)) { NamesAre(ns, "label", Quote(name), (id, id, "")); }
    forall name ensures Uri(PropIri(ns, name)) == Name(ns, "prop", Quote(name)) { NamesAre(ns, "prop", Quote(name), (id, id, "")); }
  }

  lemma EdgeTriplesAre(ns: string, json: JsonCodec, e: EdgeKey, props: map<string, Value>, t: Triple)
    ensures t in EdgeTriples(ns, json, e, props) <==> AboutEdge(ns, json, e, props, t)
  {
    hide EncodeValue, Quote, ShowNat, Iri, Name, EdgeTerm, NodeTerm, RelIri, EdgeName, NodeName;
    NamesAre(ns, "edge", "", e);
    forall name ensures Uri(PropIri(ns, name)) == Name(ns, "prop", Quote(name)) { NamesAre(ns, "prop", Quote(name), e); }
  }

  lemma StateTriplesAre(ns: string, json: JsonCodec, s: GraphState, t: Triple)
    ensures t in MetaTriples(ns, json, s) <==> AboutState(ns, json, s, t)
  {
    hide EncodeValue, Iri, Name;
    NamesAre(ns, "meta", "state", (0, 0, ""));
    NamesAre(ns, "meta", "nodeCounter", (0, 0, ""));
    NamesAre(ns, "meta", "stateVersion", (0, 0, ""));
  }

  /** The stamp and the token of a save. */
  lemma StampsAre(ns: string, text: string)
    ensures Stamp(ns, text) == Triple(Name(ns, "meta", "sync"), Name(ns, "meta", "syncVersion"), Literal(text, None, None))
    ensures Token(ns, text) == Triple(Name(ns, "meta", "sync"), Name(ns, "meta", "commit"), Literal(text, None, None))
  {
    hide Name, Iri;
    NamesAre(ns, "meta", "sync", (0, 0, ""));
    NamesAre(ns, "meta", "syncVersion", (0, 0, ""));
    NamesAre(ns, "meta", "commit", (0, 0, ""));
  }

  // --- Reading any rows ----------------------------------------------------

  /** What a row is read as; nothing, if its value cannot be decoded. */
  function Read(ns: string, json: JsonCodec, row: Triple): Fact {
    GetOk(ReadTriple(ns, json, row))
  }

  function GetOk(r: Result<Fact, DecodeError>): Fact {
    if r.Ok? then r.value else Nothing
  }

  /** Two facts about the same thing. */
  predicate SameThing(f: Fact, g: Fact) {
    match f
    case Counter(_) => g.Counter?
    case Version(_) => g.Version?
    case MainLabel(id, _) => g.MainLabel? && g.id == id
    case LabelList(id, _) => g.LabelList? && g.id == id
    case Pk(id, _) => g.Pk? && g.id == id
    case Prop(id, name, _) => g.Prop? && g.id == id && g.name == name
    case Relation(e) => g == f
    case Reified(e) => g == f
    case EdgeProp(e, name, _) => g.EdgeProp? && g.e == e && g.name == name
    case Nothing => false
  }

  /** Rows that can all be read, by what they are read as. */
  function Gather(facts: seq<Fact>): Gathered {
    if facts == [] then NOTHING_READ else Absorb(Gather(facts[..|facts| - 1]), facts[|facts| - 1])
  }

  function ReadRows(ns: string, json: JsonCodec, rows: seq<Triple>): (facts: seq<Fact>)
    ensures |facts| == |rows| && forall i | 0 <= i < |rows| :: facts[i] == Read(ns, json, rows[i])
  {
    seq(|rows|, i requires 0 <= i < |rows| => Read(ns, json, rows[i]))
  }

  lemma {:induction false} ReadAllGathers(ns: string, json: JsonCodec, rows: seq<Triple>, n: nat)
    requires n <= |rows|
    requires forall i | 0 <= i < n :: ReadTriple(ns, json, rows[i]).Ok?
    ensures ReadAll(ns, json, rows, NOTHING_READ) == ReadAll(ns, json, rows[n..], Gather(ReadRows(ns, json, rows)[..n]))
  {
    hide ReadTriple, Absorb;
    if n == 0 {
      assert rows[0..] == rows;
    } else {
      ReadAllGathers(ns, json, rows, n - 1);
      var facts := ReadRows(ns, json, rows);
      assert facts[..n][..n - 1] == facts[..n - 1] && rows[n - 1..][1..] == rows[n..] && rows[n - 1..][0] == rows[n - 1];
    }
  }

  /** The first row that cannot be decoded is an error; otherwise the facts are put together. */
  lemma DecodeGathers(ns: string, json: JsonCodec, rows: seq<Triple>)
    ensures Decode(ns, json, rows).Ok? <==> forall i | 0 <= i < |rows| :: ReadTriple(ns, json, rows[i]).Ok?
    ensures Decode(ns, json, rows).Ok? ==> Decode(ns, json, rows) == Ok(Assemble(Gather(ReadRows(ns, json, rows))))
  {
    hide ReadTriple, Absorb, Gather, Assemble;
    var facts := ReadRows(ns, json, rows);
    if forall i | 0 <= i < |rows| :: ReadTriple(ns, json, rows[i]).Ok? {
      ReadAllGathers(ns, json, rows, |rows|);
      assert rows[|rows|..] == [] && facts[..|rows|] == facts;
    } else {
      var n := FirstError(ns, json, rows);
      ReadAllGathers(ns, json, rows, n);
      assert rows[n..][0] == rows[n];
    }
  }

  lemma FirstError(ns: string, json: JsonCodec, rows: seq<Triple>) returns (n: nat)
    requires exists i :: 0 <= i < |rows| && ReadTriple(ns, json, rows[i]).Err?
    ensures n < |rows| && ReadTriple(ns, json, rows[n]).Err? && forall i | 0 <= i < n :: ReadTriple(ns, json, rows[i]).Ok?
  {
    hide ReadTriple;
    n := 0;
    while ReadTriple(ns, json, rows[n]).Ok?
      invariant n < |rows| && forall i | 0 <= i < n :: ReadTriple(ns, json, rows[i]).Ok?
      decreases |rows| - n
    {
      n := n + 1;
    }
  }

  /** Something about the node. */
  predicate OfNode(f: Fact, id: nat) {
    (f.MainLabel? || f.LabelList? || f.Pk? || f.Prop?) && f.id == id
  }

  /** The last word on something. */
  predicate LastWord(facts: seq<Fact>, i: nat) {
    i < |facts| && forall j | i < j < |facts| :: !SameThing(facts[i], facts[j])
  }

  predicate Told(facts: seq<Fact>, f: Fact) {
    exists i :: 0 <= i < |facts| && SameThing(f, facts[i])
  }

  /** What the rows say last about something is in the state, unless it is about a relation that no row
      says there is. */
  lemma {:induction false} LastWordCounts(facts: seq<Fact>, i: nat)
    requires LastWord(facts, i) && facts[i] != Nothing
    ensures Taken(Gather(facts), facts[i])
  {
    var n := |facts| - 1;
    if i < n {
      var fewer := facts[..n];
      assert fewer[i] == facts[i] && LastWord(fewer, i);
      LastWordCounts(fewer, i);
      TakenStays(Gather(fewer), facts[i], facts[n]);
    } else {
      TakenNow(Gather(facts[..n]), facts[n]);
    }
  }

  lemma TakenNow(g: Gathered, f: Fact)
    ensures Taken(Absorb(g, f), f)
  {
  }

  lemma TakenStays(g: Gathered, f: Fact, later: Fact)
    requires Taken(g, f) && !SameThing(f, later)
    ensures Taken(Absorb(g, later), f)
  {
  }

  /** What was never told. */
  predicate Absent(g: Gathered, f: Fact) {
    match f
    case Counter(_) => g.counter == 0
    case Version(_) => g.version == Float("0.0")
    case MainLabel(id, _) => MetaOf(g, id).mainLabel.None?
    case LabelList(id, _) => MetaOf(g, id).labels.None?
    case Pk(id, _) => MetaOf(g, id).pk.None?
    case Prop(id, name, _) => name !in PropsOf(g.props, id)
    case Relation(e) => e !in g.edges
    case EdgeProp(e, name, _) => name !in PropsOf(g.edgeProps, e)
    case _ => true
  }

  lemma {:induction false} UntoldIsAbsent(facts: seq<Fact>, f: Fact)
    requires !Told(facts, f)
    ensures Absent(Gather(facts), f)
  {
    if facts != [] {
      var n := |facts| - 1;
      assert forall i | 0 <= i < n :: facts[..n][i] == facts[i];
      UntoldIsAbsent(facts[..n], f);
      AbsentStays(Gather(facts[..n]), f, facts[n]);
    }
  }

  lemma AbsentStays(g: Gathered, f: Fact, later: Fact)
    requires Absent(g, f) && !SameThing(f, later)
    ensures Absent(Absorb(g, later), f)
  {
  }

  predicate AnyOfNode(facts: seq<Fact>, id: nat) {
    exists i :: 0 <= i < |facts| && OfNode(facts[i], id)
  }

  lemma {:induction false} NodesThere(facts: seq<Fact>, id: nat)
    ensures id in Gather(facts).props || id in Gather(facts).nodeMeta <==> AnyOfNode(facts, id)
  {
    if facts != [] {
      var n := |facts| - 1;
      NodesThere(facts[..n], id);
      AbsorbNode(Gather(facts[..n]), facts[n], id);
      assert AnyOfNode(facts, id) <==> AnyOfNode(facts[..n], id) || OfNode(facts[n], id) by {
        assert forall i | 0 <= i < n :: facts[..n][i] == facts[i];
      }
    }
  }

  lemma AbsorbNode(g: Gathered, f: Fact, id: nat)
    ensures var more := Absorb(g, f);
            id in more.props || id in more.nodeMeta <==> id in g.props || id in g.nodeMeta || OfNode(f, id)
  {
  }

  lemma {:induction false} EdgesThere(facts: seq<Fact>, e: EdgeKey)
    ensures e in Gather(facts).edges <==> Relation(e) in facts
  {
    if facts != [] {
      var n := |facts| - 1;
      EdgesThere(facts[..n], e);
      assert facts == facts[..n] + [facts[n]];
    }
  }

  /** What was said last of a thing is so in the state; of a relation only if there is such a relation. */
  predicate Stated(s: GraphState, f: Fact) {
    HoldsIn(s, f) || ((f.EdgeProp? || f.Reified?) && f.e !in s.edges)
  }

  /** What was never said of a thing is the default. */
  predicate Default(s: GraphState, f: Fact) {
    match f
    case Counter(_) => s.counter == 0
    case Version(_) => s.version == Float("0.0")
    case MainLabel(id, _) => id in s.nodes ==> s.nodes[id].mainLabel == Str("")
    case LabelList(id, _) => id in s.nodes ==> s.nodes[id].labels == []
    case Pk(id, _) => id in s.nodes ==> s.nodes[id].pk == Null
    case Prop(id, name, _) => id in s.nodes ==> name !in s.nodes[id].props
    case EdgeProp(e, name, _) => e in s.edges ==> name !in s.edges[e]
    case _ => true
  }

  lemma TakenIsStated(g: Gathered, f: Fact)
    requires Taken(g, f) && f != Nothing
    ensures Stated(Assemble(g), f)
  {
  }

  lemma AbsentIsDefault(g: Gathered, f: Fact)
    requires Absent(g, f)
    ensures Default(Assemble(g), f)
  {
  }

  /** Whatever the rows: they are refused if the value of one cannot be decoded; otherwise the state has
      the nodes and the relations that some row is about, the last word on everything counts, and what
      no row says is the default. */
  lemma DecodeReads(ns: string, json: JsonCodec, rows: seq<Triple>)
    ensures Decode(ns, json, rows).Ok? <==> forall i | 0 <= i < |rows| :: ReadTriple(ns, json, rows[i]).Ok?
    ensures Decode(ns, json, rows).Ok? ==>
              var s, facts := Decode(ns, json, rows).value, ReadRows(ns, json, rows);
              && (forall id: nat :: id in s.nodes <==> AnyOfNode(facts, id))
              && (forall e: EdgeKey :: e in s.edges <==> Relation(e) in facts)
              && (forall i: nat | i < |facts| && LastWord(facts, i) && facts[i] != Nothing :: Stated(s, facts[i]))
              && (forall f: Fact | !Told(facts, f) :: Default(s, f))
  {
    DecodeGathers(ns, json, rows);
    var facts := ReadRows(ns, json, rows);
    var g := Gather(facts);
    hide *;
    if Decode(ns, json, rows).Ok? {
      forall id: nat ensures id in Assemble(g).nodes <==> AnyOfNode(facts, id) { NodesThere(facts, id); NodesAssembled(g, id); }
      forall e: EdgeKey ensures e in Assemble(g).edges <==> Relation(e) in facts { EdgesThere(facts, e); EdgesAssembled(g, e); }
      forall i: nat | i < |facts| && LastWord(facts, i) && facts[i] != Nothing ensures Stated(Assemble(g), facts[i]) {
        LastWordCounts(facts, i);
        TakenIsStated(g, facts[i]);
      }
      forall f: Fact | !Told(facts, f) ensures Default(Assemble(g), f) {
        UntoldIsAbsent(facts, f);
        AbsentIsDefault(g, f);
      }
    }
  }

  lemma NodesAssembled(g: Gathered, id: nat)
    ensures id in Assemble(g).nodes <==> id in g.props || id in g.nodeMeta
  {
  }

  lemma EdgesAssembled(g: Gathered, e: EdgeKey)
    ensures e in Assemble(g).edges <==> e in g.edges
  {
  }

  /** What other programs may have written: booleans as 1, whole numbers and fractions of other widths,
      texts in a language or with a datatype of their own, and IRIs, which are read as texts. */
  lemma ForeignValues(json: JsonCodec, text: string, d: string, lang: Option<string>)
    ensures var xsd := "http://www.w3.org/" + "2001/XMLSchema#";
            && DecodeTerm(json, Literal("1", Some(xsd + "boolean"), lang)) == Ok(Bool(true))
            && (text != "true" && text != "1" ==> DecodeTerm(json, Literal(text, Some(xsd + "boolean"), lang)) == Ok(Bool(false)))
            && (forall k | k in {"integer", "int", "long"} ::
                  DecodeTerm(json, Literal(text, Some(xsd + k), lang)) ==
                  match ReadInt(text) case Some(n) => Ok(Int(n)) case None => Err(NotAnInteger(text)))
            && (forall k | k in {"double", "float", "decimal"} :: DecodeTerm(json, Literal(text, Some(xsd + k), lang)) == Ok(Float(text)))
    ensures DecodeTerm(json, Literal(text, None, lang)) == Ok(Str(text)) && DecodeTerm(json, Uri(text)) == Ok(Str(text))
    ensures d !in {XSD_BOOLEAN, XSD_INTEGER, XSD_INT, XSD_LONG, XSD_DOUBLE, XSD_FLOAT, XSD_DECIMAL, XSD_DATE_TIME, XSD_DATE, RDF_JSON} ==>
              DecodeTerm(json, Literal(text, Some(d), lang)) == Ok(Str(text))
  {
    DatatypesDiffer();
  }

  /** A list of labels is read as it is, and null as none; anything else is refused. */
  lemma LabelsRead(v: Value)
    ensures v.Null? ==> ReadLabels(v) == Some([])
    ensures v.List? && (forall i | 0 <= i < |v.items| :: v.items[i].Str?) ==>
              ReadLabels(v).Some? && |ReadLabels(v).value| == |v.items|
              && forall i | 0 <= i < |v.items| :: Str(ReadLabels(v).value[i]) == v.items[i]
    ensures ReadLabels(v).Some? ==> v.Null? || (v.List? && forall i | 0 <= i < |v.items| :: v.items[i].Str?)
  {
  }

  /** Rows about other subjects say nothing, and neither do a node's classes. */
  lemma OthersSayNothing(ns: string, json: JsonCodec, iri: string, p: Term, o: Term, id: nat)
    requires iri != ns + "meta" + "/" + "state" && !(ns + "node" + "/" <= iri) && !(ns + "edge" + "/" <= iri)
    ensures ReadTriple(ns, json, Triple(Uri(iri), p, o)) == Ok(Nothing)
    ensures ReadTriple(ns, json, Triple(NodeName(ns, id), RdfName("type"), o)) == Ok(Nothing)
  {
    assert ns + ("node" + "/") == ns + "node" + "/" && ns + ("edge" + "/") == ns + "edge" + "/";
    NamesAre(ns, "meta", "state", (id, id, ""));
    NodeSubject(ns, json, id, RDF_TYPE, o);
    hide ReadNodeTriple, Name;
    assert Uri(iri) != MetaState(ns) by { assert MetaState(ns) == Uri(ns + "meta" + "/" + "state"); }
    assert RdfName("type") == Uri(RDF_TYPE);
    TypeSaysNothing(ns, json, id, o);
  }

  lemma TypeSaysNothing(ns: string, json: JsonCodec, id: nat, o: Term)
    ensures ReadNodeTriple(ns, json, id, RDF_TYPE, o) == Ok(Nothing)
  {
  }
}
