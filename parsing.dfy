/**
 * The document text parser: a document is a `.I <digits>` header line, a
 * `.W` line, and token lines up to and including the first blank line.
 * The input file is a sequence of lines read through a cursor.
 */
module Parsing {
  import opened Common
  import opened BinaryEncoder
  import opened Documents
  import opened Terms

  /** Why a document could not be read (an IOException or a NumberFormatException). */
  datatype ParseError =
    | UnexpectedPattern(line: string)  // header not of the form `.I <digits>`
    | ExpectedW(line: string)          // second line is not `.W`
    | UnexpectedEnd                    // input ended inside a document
    | NumberFormat(digits: string)     // the id does not fit in a Long

  // ---------------------------------------------------------------------
  // Characters and lines
  // ---------------------------------------------------------------------

  /**
   * Kotlin's `Char.isWhitespace`: Java whitespace or a Unicode space
   * separator (categories Zs, Zl, Zp).
   */
  predicate IsWhitespace(c: char) {
    || c == ' '
    || '\t' <= c <= '\r'
    || '\U{1C}' <= c <= '\U{1F}'
    || c == '\U{A0}'
    || c == '\U{1680}'
    || '\U{2000}' <= c <= '\U{200A}'
    || c == '\U{2028}' || c == '\U{2029}'
    || c == '\U{202F}' || c == '\U{205F}'
    || c == '\U{3000}'
  }

  /** `isBlank`: empty or only whitespace. */
  predicate IsBlank(s: string) {
    forall i :: 0 <= i < |s| ==> IsWhitespace(s[i])
  }

  /**
   * `line.split(Regex(" +"))`: the pieces between runs of spaces. Kotlin
   * keeps empty leading and trailing pieces, so "" gives [""] and " a" gives
   * ["", "a"].
   */
  function SplitSpaces(s: string): (r: seq<string>)
    ensures |r| >= 1
    decreases |s|
  {
    if s == [] then [""]
    else if s[0] != ' ' then
      var rest := SplitSpaces(s[1..]);
      [[s[0]] + rest[0]] + rest[1..]
    else if |s| > 1 && s[1] == ' ' then SplitSpaces(s[1..])
    else [""] + SplitSpaces(s[1..])
  }

  /** The pieces joined with one space between each two: the inverse of splitting. */
  function Join(ps: seq<string>): string
    requires |ps| >= 1
    decreases |ps|
  {
    if |ps| == 1 then ps[0] else ps[0] + " " + Join(ps[1..])
  }

  /** All pieces glued together. */
  function Concat(ps: seq<string>): string {
    if ps == [] then "" else ps[0] + Concat(ps[1..])
  }

  /** The string without its spaces. */
  function RemoveSpaces(s: string): (r: string)
    ensures ' ' !in r
  {
    if s == [] then "" else (if s[0] == ' ' then "" else [s[0]]) + RemoveSpaces(s[1..])
  }

  /** The pieces a split may give: none holds a space, and only the first and last may be empty. */
  ghost predicate WellSplit(ps: seq<string>) {
    && |ps| >= 1
    && (forall i :: 0 <= i < |ps| ==> ' ' !in ps[i])
    && (forall i :: 0 < i < |ps| - 1 ==> ps[i] != "")
  }

  /** Splitting drops exactly the spaces, and its pieces are well formed. */
  lemma {:induction false} SplitSpacesPieces(s: string)
    ensures WellSplit(SplitSpaces(s))
    ensures Concat(SplitSpaces(s)) == RemoveSpaces(s)
    decreases |s|
  {
    if s != [] {
      SplitSpacesPieces(s[1..]);
      var rest := SplitSpaces(s[1..]);
      if s[0] != ' ' {
        var r := [[s[0]] + rest[0]] + rest[1..];
        assert r[1..] == rest[1..];
        assert Concat(rest) == rest[0] + Concat(rest[1..]);
      } else if |s| > 1 && s[1] == ' ' {
      } else {
        SplitAfterSpace(s[1..]);
        var r := [""] + rest;
        assert r[1..] == rest;
      }
    }
  }

  /** A split of a string not starting with a space starts with a non-empty piece, unless the string is empty. */
  lemma {:induction false} SplitAfterSpace(s: string)
    requires s == [] || s[0] != ' '
    ensures s != [] ==> SplitSpaces(s)[0] != ""
  {
  }

  /** Splitting a join gives the pieces back. */
  lemma {:induction false} SplitJoin(ps: seq<string>)
    requires WellSplit(ps)
    ensures SplitSpaces(Join(ps)) == ps
    decreases |ps|
  {
    if |ps| > 1 {
      var tail := ps[1..];
      assert WellSplit(tail) by {
        forall i | 0 < i < |tail| - 1 ensures tail[i] != "" {
          assert tail[i] == ps[i + 1];
        }
      }
      SplitJoin(tail);
      var rest := Join(tail);
      JoinHead(tail);
      if tail[0] == "" {
        assert |ps| == 2;
      }
      assert rest == [] || rest[0] != ' ';
      assert Join(ps) == ps[0] + (" " + rest);
      assert ' ' !in ps[0];
      SplitPrefix(ps[0], " " + rest);
      SplitSpace(rest);
      var split := SplitSpaces(" " + rest);
      assert split == [""] + tail;
      assert split[1..] == tail;
      assert SplitSpaces(Join(ps)) == [ps[0] + split[0]] + split[1..];
      assert ps[0] + split[0] == ps[0];
      assert ps == [ps[0]] + tail;
    } else {
      SplitPrefix(ps[0], "");
      assert ps[0] + "" == ps[0];
    }
  }

  /** A join starts with its first piece; after an empty first piece comes a space or nothing. */
  lemma {:induction false} JoinHead(ps: seq<string>)
    requires WellSplit(ps)
    ensures var j := Join(ps); ps[0] != "" ==> j != [] && j[0] != ' '
    ensures var j := Join(ps); ps[0] == "" && |ps| == 1 ==> j == []
  {
    if ps[0] != "" {
      assert Join(ps)[0] == ps[0][0];
    }
  }

  /** A space followed by something that is not a space opens a new piece. */
  lemma {:induction false} SplitSpace(rest: string)
    requires rest == [] || rest[0] != ' '
    ensures SplitSpaces(" " + rest) == [""] + SplitSpaces(rest)
  {
    assert (" " + rest)[1..] == rest;
  }

  /** A space-free prefix is glued onto the first piece of what follows it. */
  lemma {:induction false} SplitPrefix(p: string, s: string)
    requires ' ' !in p && (s == [] || s[0] == ' ')
    ensures SplitSpaces(p + s) == [p + SplitSpaces(s)[0]] + SplitSpaces(s)[1..]
    decreases |p|
  {
    if p == [] {
      assert p + s == s;
      var r := SplitSpaces(s);
      assert r == [r[0]] + r[1..];
      assert p + r[0] == r[0];
    } else {
      SplitPrefix(p[1..], s);
      assert (p + s)[1..] == p[1..] + s;
      assert (p + s)[0] == p[0];
      assert [p[0]] + (p[1..] + SplitSpaces(s)[0]) == p + SplitSpaces(s)[0];
    }
  }

  // ---------------------------------------------------------------------
  // The header line
  // ---------------------------------------------------------------------

  predicate IsDigit(c: char) {
    '0' <= c <= '9'
  }

  predicate AllDigits(s: string) {
    forall i :: 0 <= i < |s| ==> IsDigit(s[i])
  }

  /** The decimal value of a digit string. */
  function DecimalValue(ds: string): nat
    requires AllDigits(ds)
    decreases |ds|
  {
    if ds == [] then 0
    else DecimalValue(ds[..|ds| - 1]) * 10 + ((ds[|ds| - 1] as int) - ('0' as int))
  }

  /** The decimal digits of n, without leading zeros. */
  function DecimalString(n: nat): (ds: string)
    ensures |ds| >= 1 && AllDigits(ds)
  {
    if n < 10 then [('0' as int + n) as char]
    else DecimalString(n / 10) + [('0' as int + n % 10) as char]
  }

  lemma {:induction false} DecimalRoundTrip(n: nat)
    ensures DecimalValue(DecimalString(n)) == n
  {
    if n >= 10 {
      DecimalRoundTrip(n / 10);
      var ds := DecimalString(n);
      assert ds[..|ds| - 1] == DecimalString(n / 10);
    }
  }

  /** The whole line matches `^\.I ([0-9]+)$`. */
  predicate IsHeader(line: string) {
    |line| > 3 && line[..3] == ".I " && AllDigits(line[3..])
  }

  /** The digits a header captures. */
  function HeaderDigits(line: string): (ds: string)
    requires IsHeader(line)
    ensures |ds| >= 1 && AllDigits(ds) && line == ".I " + ds
  {
    line[3..]
  }

  /** `toLong()` of a digit string: its value, or a NumberFormatException beyond Long.MAX_VALUE. */
  function ParseLong(ds: string): Result<int, ParseError>
    requires AllDigits(ds)
  {
    var v := DecimalValue(ds);
    if v <= LongMax then Ok(v) else Err(NumberFormat(ds))
  }

  /** Every id written in decimal reads back, unless it is beyond Long.MAX_VALUE. */
  lemma {:induction false} ParseLongRendered(n: nat)
    ensures ParseLong(DecimalString(n)) ==
              if n <= LongMax then Ok(n) else Err(NumberFormat(DecimalString(n)))
  {
    DecimalRoundTrip(n);
  }

  /** Leading zeros do not change the value, so `.I 007` and `.I 7` carry the same id. */
  lemma {:induction false} LeadingZero(ds: string)
    requires AllDigits(ds)
    ensures AllDigits("0" + ds) && DecimalValue("0" + ds) == DecimalValue(ds)
    decreases |ds|
  {
    if ds != [] {
      var z := "0" + ds;
      assert z[..|z| - 1] == "0" + ds[..|ds| - 1];
      LeadingZero(ds[..|ds| - 1]);
    }
  }

  // ---------------------------------------------------------------------
  // What reading one document does, as a function of the lines
  // ---------------------------------------------------------------------

  /** The first blank line at or after k. */
  function FirstBlankFrom(lines: seq<string>, k: nat): (r: Option<nat>)
    requires k <= |lines|
    ensures r.Some? ==> k <= r.value < |lines| && IsBlank(lines[r.value])
    ensures r.Some? ==> forall j :: k <= j < r.value ==> !IsBlank(lines[j])
    ensures r.None? ==> forall j :: k <= j < |lines| ==> !IsBlank(lines[j])
    decreases |lines| - k
  {
    if k == |lines| then None
    else if IsBlank(lines[k]) then Some(k)
    else FirstBlankFrom(lines, k + 1)
  }

  /** The tokens of some lines, in order. */
  function Tokens(ls: seq<string>): seq<string>
    decreases |ls|
  {
    if ls == [] then [] else Tokens(ls[..|ls| - 1]) + SplitSpaces(ls[|ls| - 1])
  }

  /** The outcome of reading at `pos`: nothing (with the next position), a document, or an error. */
  datatype Outcome =
    | Skipped(next: nat)
    | Parsed(docId: int, tokens: seq<string>, next: nat)
    | Failed(error: ParseError)

  function ReadDocument(lines: seq<string>, pos: nat): Outcome
    requires pos <= |lines|
  {
    if pos == |lines| then Skipped(pos)
    else if IsBlank(lines[pos]) then Skipped(pos + 1)
    else if !IsHeader(lines[pos]) then Failed(UnexpectedPattern(lines[pos]))
    else if ParseLong(HeaderDigits(lines[pos])).Err? then Failed(ParseLong(HeaderDigits(lines[pos])).error)
    else if pos + 1 == |lines| then Failed(UnexpectedEnd)
    else if lines[pos + 1] != ".W" then Failed(ExpectedW(lines[pos + 1]))
    else match FirstBlankFrom(lines, pos + 2)
      case None => Failed(UnexpectedEnd)
      case Some(j) =>
        Parsed(ParseLong(HeaderDigits(lines[pos])).value, Tokens(lines[pos + 2..j + 1]), j + 1)
  }

  // ---------------------------------------------------------------------
  // Properties of the reader
  // ---------------------------------------------------------------------

  /** Nothing is read exactly when the input is over or its next line is blank; that line is consumed. */
  lemma {:induction false} SkippedExactly(lines: seq<string>, pos: nat)
    requires pos <= |lines|
    ensures ReadDocument(lines, pos).Skipped? <==> pos == |lines| || IsBlank(lines[pos])
    ensures ReadDocument(lines, pos).Skipped? ==>
              ReadDocument(lines, pos).next == if pos == |lines| then pos else pos + 1
  {
  }

  /**
   * A document is read exactly when the header matches with an id within
   * Long range, the second line is `.W` and a blank line follows; the
   * reader then stops after that blank line, having consumed 2 + k lines,
   * k >= 1 the token lines counting the blank one.
   */
  lemma {:induction false} ParsedExactly(lines: seq<string>, pos: nat)
    requires pos <= |lines|
    ensures ReadDocument(lines, pos).Parsed? <==>
              && pos + 2 <= |lines|
              && IsHeader(lines[pos]) && DecimalValue(HeaderDigits(lines[pos])) <= LongMax
              && lines[pos + 1] == ".W"
              && FirstBlankFrom(lines, pos + 2).Some?
    ensures ReadDocument(lines, pos).Parsed? ==>
              var o := ReadDocument(lines, pos);
              && o.docId == DecimalValue(HeaderDigits(lines[pos]))
              && pos + 3 <= o.next <= |lines|
              && IsBlank(lines[o.next - 1])
              && (forall j :: pos + 2 <= j < o.next - 1 ==> !IsBlank(lines[j]))
              && o.tokens == Tokens(lines[pos + 2..o.next])
  {
  }

  /** An empty terminating line contributes an empty token. */
  lemma {:induction false} EmptyTerminatorToken(lines: seq<string>, pos: nat)
    requires pos <= |lines| && ReadDocument(lines, pos).Parsed?
    requires lines[ReadDocument(lines, pos).next - 1] == ""
    ensures var toks := ReadDocument(lines, pos).tokens; |toks| >= 1 && toks[|toks| - 1] == ""
  {
    var o := ReadDocument(lines, pos);
    var ls := lines[pos + 2..o.next];
    assert ls[|ls| - 1] == "";
  }

  /** No token contains a space. */
  lemma {:induction false} TokensHaveNoSpaces(ls: seq<string>)
    ensures forall i :: 0 <= i < |Tokens(ls)| ==> ' ' !in Tokens(ls)[i]
    decreases |ls|
  {
    if ls != [] {
      TokensHaveNoSpaces(ls[..|ls| - 1]);
      SplitSpacesPieces(ls[|ls| - 1]);
    }
  }

  /** The lines a document is written as: header, `.W`, the token lines and an empty line. */
  function Render(docId: nat, body: seq<string>): seq<string> {
    [".I " + DecimalString(docId), ".W"] + body + [""]
  }

  /** Reading a rendered document, whatever follows it, gives back its id and tokens. */
  lemma {:induction false} ReadRendered(docId: nat, body: seq<string>, rest: seq<string>)
    requires docId <= LongMax
    requires forall i :: 0 <= i < |body| ==> !IsBlank(body[i])
    ensures var lines := Render(docId, body) + rest;
            ReadDocument(lines, 0) == Parsed(docId, Tokens(body + [""]), |body| + 3)
  {
    var lines := Render(docId, body) + rest;
    RenderedHeader(docId);
    RenderedLines(docId, body, rest);
    ReadParsedAt(lines, 0, |body| + 2);
  }

  /** The document found when the header, `.W` and a first blank line at j are in place. */
  lemma {:induction false} ReadParsedAt(lines: seq<string>, pos: nat, j: nat)
    requires pos + 2 <= j < |lines|
    requires !IsBlank(lines[pos]) && IsHeader(lines[pos]) && ParseLong(HeaderDigits(lines[pos])).Ok?
    requires lines[pos + 1] == ".W" && FirstBlankFrom(lines, pos + 2) == Some(j)
    ensures ReadDocument(lines, pos) ==
              Parsed(ParseLong(HeaderDigits(lines[pos])).value, Tokens(lines[pos + 2..j + 1]), j + 1)
  {
  }

  /** The rendered header matches and captures the id's digits. */
  lemma {:induction false} RenderedHeader(docId: nat)
    ensures IsHeader(".I " + DecimalString(docId))
    ensures DecimalValue(HeaderDigits(".I " + DecimalString(docId))) == docId
  {
    var ds := DecimalString(docId);
    var header := ".I " + ds;
    assert header[..3] == ".I " && header[3..] == ds;
    DecimalRoundTrip(docId);
  }

  /** Where the parts of a rendered document sit among the lines. */
  lemma {:induction false} RenderedLines(docId: nat, body: seq<string>, rest: seq<string>)
    requires forall i :: 0 <= i < |body| ==> !IsBlank(body[i])
    ensures var lines := Render(docId, body) + rest;
            && |lines| == |body| + 3 + |rest|
            && lines[0] == ".I " + DecimalString(docId) && !IsBlank(lines[0]) && lines[1] == ".W"
            && FirstBlankFrom(lines, 2) == Some(|body| + 2)
            && lines[2..|body| + 3] == body + [""]
  {
    var lines := Render(docId, body) + rest;
    assert lines[0][0] == '.';
    forall i | 2 <= i < |body| + 2 ensures !IsBlank(lines[i]) {
      assert lines[i] == body[i - 2];
    }
    assert IsBlank(lines[|body| + 2]);
    FirstBlankAt(lines, 2, |body| + 2);
  }

  /** A blank line at j preceded by non-blank lines from k is the first blank from k. */
  lemma {:induction false} FirstBlankAt(lines: seq<string>, k: nat, j: nat)
    requires k <= j < |lines| && IsBlank(lines[j])
    requires forall i :: k <= i < j ==> !IsBlank(lines[i])
    ensures FirstBlankFrom(lines, k) == Some(j)
  {
  }

  // ---------------------------------------------------------------------
  // The cursor and the parser
  // ---------------------------------------------------------------------

  /** An iterator over the lines of a file. */
  class LineIterator {
    const lines: seq<string>
    var pos: nat

    ghost predicate Valid()
      reads this
    {
      pos <= |lines|
    }

    constructor(lines: seq<string>)
      ensures Valid() && this.lines == lines && pos == 0
    {
      this.lines := lines;
      pos := 0;
    }

    predicate HasNext()
      reads this
    {
      pos < |lines|
    }

    method Next() returns (line: string)
      requires Valid() && HasNext()
      modifies this
      ensures Valid() && pos == old(pos) + 1 && line == lines[old(pos)]
    {
      line := lines[pos];
      pos := pos + 1;
    }
  }

  /** `nextLineOrIOException`: the next line, or UnexpectedEnd at the end of the input. */
  method NextLineOrIOException(it: LineIterator) returns (r: Result<string, ParseError>)
    requires it.Valid()
    modifies it
    ensures it.Valid()
    ensures old(it.pos) < |it.lines| ==> r == Ok(it.lines[old(it.pos)]) && it.pos == old(it.pos) + 1
    ensures old(it.pos) == |it.lines| ==> r == Err(UnexpectedEnd) && it.pos == old(it.pos)
  {
    if !it.HasNext() {
      r := Err(UnexpectedEnd);
    } else {
      var line := it.Next();
      r := Ok(line);
    }
  }

  /**
   * The part both copies of `nextDocument` share: read a document's id and
   * tokens at the cursor, or nothing, or fail, as `ReadDocument` says.
   */
  method ScanDocument(it: LineIterator) returns (r: Result<Option<(int, seq<string>)>, ParseError>)
    requires it.Valid()
    modifies it
    ensures it.Valid()
    ensures var o := ReadDocument(it.lines, old(it.pos));
            && (o.Skipped? ==> r == Ok(None) && it.pos == o.next)
            && (o.Parsed? ==> r == Ok(Some((o.docId, o.tokens))) && it.pos == o.next)
            && (o.Failed? ==> r == Err(o.error))
  {
    ghost var start := it.pos;
    if !it.HasNext() {
      return Ok(None);
    }
    var firstLine := it.Next();
    if IsBlank(firstLine) {
      return Ok(None);
    }
    if !IsHeader(firstLine) {
      return Err(UnexpectedPattern(firstLine));
    }
    var docId := ParseLong(HeaderDigits(firstLine));
    if docId.Err? {
      return Err(docId.error);
    }
    var secondLine := NextLineOrIOException(it);
    if secondLine.Err? {
      return Err(secondLine.error);
    }
    if secondLine.value != ".W" {
      return Err(ExpectedW(secondLine.value));
    }
    var tokens := ScanTokens(it);
    if tokens.Err? {
      return Err(tokens.error);
    }
    r := Ok(Some((docId.value, tokens.value)));
  }

  /**
   * The do-while loop of `nextDocument`: read lines, splitting each into
   * tokens, until a blank line has been read; the input may not end first.
   */
  method ScanTokens(it: LineIterator) returns (r: Result<seq<string>, ParseError>)
    requires it.Valid()
    modifies it
    ensures it.Valid()
    ensures var b := FirstBlankFrom(it.lines, old(it.pos));
            && (b.None? ==> r == Err(UnexpectedEnd))
            && (b.Some? ==> r == Ok(Tokens(it.lines[old(it.pos)..b.value + 1])) && it.pos == b.value + 1)
  {
    ghost var start := it.pos;
    var tokens: seq<string> := [];
    var more := true;
    while more
      invariant it.Valid() && start <= it.pos
      invariant tokens == Tokens(it.lines[start..it.pos])
      invariant more ==> FirstBlankFrom(it.lines, start) == FirstBlankFrom(it.lines, it.pos)
      invariant !more ==> start < it.pos && FirstBlankFrom(it.lines, start) == Some(it.pos - 1)
      decreases |it.lines| - it.pos
    {
      ghost var before := it.pos;
      var line := NextLineOrIOException(it);
      if line.Err? {
        assert FirstBlankFrom(it.lines, it.pos) == None;
        return Err(line.error);
      }
      ScanStep(it.lines, start, before, tokens);
      tokens := tokens + SplitSpaces(line.value);
      more := !IsBlank(line.value);
    }
    assert it.lines[start..it.pos] == it.lines[start..FirstBlankFrom(it.lines, start).value + 1];
    r := Ok(tokens);
  }

  /** Reading one more token line keeps the tokens and the blank-line search in step. */
  lemma {:induction false} ScanStep(lines: seq<string>, start: nat, p: nat, tokens: seq<string>)
    requires start <= p < |lines| && tokens == Tokens(lines[start..p])
    requires FirstBlankFrom(lines, start) == FirstBlankFrom(lines, p)
    ensures tokens + SplitSpaces(lines[p]) == Tokens(lines[start..p + 1])
    ensures !IsBlank(lines[p]) ==> FirstBlankFrom(lines, start) == FirstBlankFrom(lines, p + 1)
    ensures IsBlank(lines[p]) ==> FirstBlankFrom(lines, start) == Some(p)
  {
    TokensSnoc(lines, start, p);
  }

  lemma {:induction false} TokensSnoc(lines: seq<string>, k: nat, j: nat)
    requires k <= j < |lines|
    ensures Tokens(lines[k..j + 1]) == Tokens(lines[k..j]) + SplitSpaces(lines[j])
  {
    assert lines[k..j + 1][..j - k] == lines[k..j];
  }

  /** `nextDocument` (current copy): the document with its tokens turned into term ids. */
  method NextDocument(it: LineIterator, terms: Terms) returns (r: Result<Option<Document>, ParseError>)
    requires it.Valid() && terms.Valid()
    modifies it, terms
    ensures it.Valid() && terms.Valid()
    ensures var o := ReadDocument(it.lines, old(it.pos));
            && (o.Skipped? ==> r == Ok(None) && it.pos == o.next && unchanged(terms))
            && (o.Parsed? ==>
                  && it.pos == o.next
                  && (terms.terms, terms.lastTermId) == RegisterAll(old(terms.terms), old(terms.lastTermId), o.tokens)
                  && terms.terms.Keys == old(terms.terms).Keys + Strings(o.tokens)
                  && r == Ok(Some(Document(o.docId, IdsOf(terms.terms, o.tokens)))))
            && (o.Failed? ==> r == Err(o.error) && unchanged(terms))
  {
    var scanned := ScanDocument(it);
    if scanned.Err? {
      return Err(scanned.error);
    }
    if scanned.value.None? {
      return Ok(None);
    }
    var (docId, tokens) := scanned.value.value;
    var ids := terms.ToTermIds(tokens);
    r := Ok(Some(Document(docId, ids)));
  }

  /**
   * `nextDocument` (older copy): the same reader; turning tokens into term
   * ids is a function it is given.
   */
  method NextDocumentLegacy(it: LineIterator, toTermIds: seq<string> -> set<int>)
    returns (r: Result<Option<Document>, ParseError>)
    requires it.Valid()
    modifies it
    ensures it.Valid()
    ensures var o := ReadDocument(it.lines, old(it.pos));
            && (o.Skipped? ==> r == Ok(None) && it.pos == o.next)
            && (o.Parsed? ==> r == Ok(Some(Document(o.docId, toTermIds(o.tokens)))) && it.pos == o.next)
            && (o.Failed? ==> r == Err(o.error))
  {
    var scanned := ScanDocument(it);
    if scanned.Err? {
      return Err(scanned.error);
    }
    if scanned.value.None? {
      return Ok(None);
    }
    var (docId, tokens) := scanned.value.value;
    r := Ok(Some(Document(docId, toTermIds(tokens))));
  }
}
