/** The header reader of the ARFF subset the data set importer accepts: a
    cursor over one line that reads tokens, attribute declarations and nominal
    value lists, the coding table of a nominal attribute, and the row count of
    a data set. Positions count characters. */
module DataSets {
  import opened Base

  // ---------------------------------------------------------------------------
  // Characters and searches
  // ---------------------------------------------------------------------------

  /** Rust's `char::is_whitespace`: the characters with the Unicode
      White_Space property, by code point. */
  predicate IsWhitespace(c: char) {
    var n := c as int;
    (0x09 <= n <= 0x0D) || n == 0x20 || n == 0x85 || n == 0xA0 || n == 0x1680 ||
    (0x2000 <= n <= 0x200A) || n == 0x2028 || n == 0x2029 || n == 0x202F || n == 0x205F || n == 0x3000
  }

  /** The first position at or after `i` that is not whitespace, or `|s|`. */
  function SkipSpace(s: string, i: nat): (j: nat)
    requires i <= |s|
    ensures i <= j <= |s|
    ensures forall k :: i <= k < j ==> IsWhitespace(s[k])
    ensures j < |s| ==> !IsWhitespace(s[j])
    decreases |s| - i
  {
    if i == |s| || !IsWhitespace(s[i]) then i else SkipSpace(s, i + 1)
  }

  /** The first whitespace position at or after `i`, or `|s|`. */
  function NextSpace(s: string, i: nat): (j: nat)
    requires i <= |s|
    ensures i <= j <= |s|
    ensures forall k :: i <= k < j ==> !IsWhitespace(s[k])
    ensures j < |s| ==> IsWhitespace(s[j])
    decreases |s| - i
  {
    if i == |s| || IsWhitespace(s[i]) then i else NextSpace(s, i + 1)
  }

  /** The first position at or after `i` holding `c`, or `|s|`. */
  function Find(s: string, i: nat, c: char): (j: nat)
    requires i <= |s|
    ensures i <= j <= |s|
    ensures forall k :: i <= k < j ==> s[k] != c
    ensures j < |s| ==> s[j] == c
    decreases |s| - i
  {
    if i == |s| || s[i] == c then i else Find(s, i + 1, c)
  }

  // ---------------------------------------------------------------------------
  // Tokens
  // ---------------------------------------------------------------------------

  /** The panics of the parser. `CursorPastEnd` is a slice that starts past
      the end of the line. */
  datatype ParseError =
    | EndOfFile
    | CursorPastEnd
    | MissingClosingSingleQuote
    | MissingClosingDoubleQuote
    | MissingOpeningBrace
    | MissingClosingBrace

  /** A token read by `parse_string`: it spans `start..end` and the cursor
      moves to `next`. */
  datatype Scan = Scan(start: nat, end: nat, next: nat)

  /** The cursor after a token ending at `end`: the next whitespace position,
      or, when no whitespace follows, `end` plus the length of the whole line. */
  function After(s: string, end: nat): nat
    requires end <= |s|
  {
    var w := NextSpace(s, end);
    end + (if w < |s| then w - end else |s|)
  }

  /** What `parse_string` reads from position `i` of `s`. It skips whitespace;
      a token opening with a quote runs from the character after it to the
      next matching quote, searched from the character after that; any other
      token runs to the next whitespace. */
  function ScanString(s: string, i: nat): (r: Result<Scan, ParseError>)
    ensures r.Ok? ==> i <= r.value.start <= r.value.end <= |s| && r.value.end <= r.value.next
  {
    if i > |s| then Err(CursorPastEnd)
    else
      var j := SkipSpace(s, i);
      if j == |s| then Err(EndOfFile)
      else if s[j] == '\'' || s[j] == '"' then
        var start := j + 1;
        if start + 1 > |s| then Err(CursorPastEnd)
        else
          var close := Find(s, start + 1, s[j]);
          if close == |s| then
            Err(if s[j] == '\'' then MissingClosingSingleQuote else MissingClosingDoubleQuote)
          else Ok(Scan(start, close, After(s, close)))
      else
        var end := NextSpace(s, j);
        Ok(Scan(j, end, After(s, end)))
  }

  /** The token of a successful scan. */
  function Token(s: string, sc: Scan): string
    requires sc.start <= sc.end <= |s|
  {
    s[sc.start..sc.end]
  }

  /** Reading fails with "End of file reached!" exactly when only whitespace
      remains after the cursor, and a cursor past the end fails outright. */
  lemma ScanAtEnd(s: string, i: nat)
    ensures i > |s| ==> ScanString(s, i) == Err(CursorPastEnd)
    ensures i <= |s| ==>
              (ScanString(s, i) == Err(EndOfFile) <==> forall k :: i <= k < |s| ==> IsWhitespace(s[k]))
  {
    if i <= |s| {
      var j := SkipSpace(s, i);
      if j < |s| {
        assert !IsWhitespace(s[j]);
      }
    }
  }

  /** A token that does not open with a quote starts at the first
      non-whitespace character after the cursor and is the longest run of
      non-whitespace characters there; the cursor lands on the whitespace that
      ends it. */
  lemma ScanBare(s: string, i: nat, j: nat)
    requires i <= j < |s| && (forall k :: i <= k < j ==> IsWhitespace(s[k])) && !IsWhitespace(s[j])
    requires s[j] != '\'' && s[j] != '"'
    ensures ScanString(s, i).Ok?
    ensures var sc := ScanString(s, i).value;
            sc.start == j && j < sc.end &&
            (forall k :: j <= k < sc.end ==> !IsWhitespace(s[k])) &&
            (sc.end < |s| ==> IsWhitespace(s[sc.end]) && sc.next == sc.end)
  {
    assert SkipSpace(s, i) == j;
  }

  /** A quoted token with at least one character of content is that content,
      without the quotes, up to the first matching quote after it; without a
      matching quote reading fails. */
  lemma ScanQuoted(s: string, i: nat, j: nat)
    requires i <= j && j + 1 < |s| && (forall k :: i <= k < j ==> IsWhitespace(s[k]))
    requires (s[j] == '\'' || s[j] == '"') && s[j + 1] != s[j]
    ensures ScanString(s, i).Ok? <==> s[j] in s[j + 2..]
    ensures ScanString(s, i).Err? ==>
              ScanString(s, i).error == if s[j] == '\'' then MissingClosingSingleQuote else MissingClosingDoubleQuote
    ensures ScanString(s, i).Ok? ==>
              var sc := ScanString(s, i).value;
              sc.start == j + 1 && sc.start < sc.end < |s| && s[sc.end] == s[j] && s[j] !in Token(s, sc)
  {
    QuotedOutcome(s, i, j);
    FindMeaning(s, j + 2, s[j]);
    FindMeaning(s, j + 1, s[j]);
    assert Find(s, j + 1, s[j]) == Find(s, j + 2, s[j]);
  }

  /** `Find` stops inside the string exactly when `c` occurs from `i` on, and
      everything it passes over differs from `c`. */
  lemma FindMeaning(s: string, i: nat, c: char)
    requires i <= |s|
    ensures Find(s, i, c) < |s| <==> c in s[i..]
    ensures c !in s[i..Find(s, i, c)]
  {
    var close := Find(s, i, c);
    var rest := s[i..];
    if close < |s| {
      assert rest[close - i] == c;
    } else {
      assert forall m :: 0 <= m < |rest| ==> rest[m] == s[i + m];
    }
    var t := s[i..close];
    assert forall m :: 0 <= m < |t| ==> t[m] == s[i + m];
  }

  /** Where a quoted token opening at `j` ends, by the search for its closing
      quote. */
  lemma QuotedOutcome(s: string, i: nat, j: nat)
    requires i <= j && j + 1 < |s| && (forall k :: i <= k < j ==> IsWhitespace(s[k]))
    requires s[j] == '\'' || s[j] == '"'
    ensures var close := Find(s, j + 2, s[j]);
            ScanString(s, i) ==
              if close < |s| then Ok(Scan(j + 1, close, After(s, close)))
              else Err(if s[j] == '\'' then MissingClosingSingleQuote else MissingClosingDoubleQuote)
  {
    assert SkipSpace(s, i) == j;
  }

  /** With empty content the closing quote is skipped: `'' x'` reads the
      token `' x`, and since no whitespace follows it the cursor moves past
      the end of the line. */
  lemma EmptyQuotesExample()
    ensures ScanString("'' x'", 0) == Ok(Scan(1, 4, 9))
    ensures Token("'' x'", Scan(1, 4, 9)) == "' x"
  {
    var s := "'' x'";
    assert SkipSpace(s, 0) == 0;
    assert Find(s, 2, '\'') == 4 by {
      assert s[2] != '\'' && s[3] != '\'' && s[4] == '\'';
    }
    assert NextSpace(s, 4) == 5;
  }

  /** A cursor over a line of text. */
  class Parser {
    const raw: string
    var index: nat

    /** `Parser::new`. */
    constructor (raw: string, index: nat)
      ensures this.raw == raw && this.index == index
    {
      this.raw := raw;
      this.index := index;
    }

    /** `parse_string`: reads the token `ScanString` describes and moves the
        cursor; the cursor never moves backwards. */
    method ParseString() returns (r: Result<string, ParseError>)
      modifies this
      ensures ScanString(raw, old(index)).Err? ==> r == Err(ScanString(raw, old(index)).error) && index == old(index)
      ensures ScanString(raw, old(index)).Ok? ==>
                var sc := ScanString(raw, old(index)).value;
                r == Ok(Token(raw, sc)) && index == sc.next
      ensures r.Ok? ==> old(index) + |r.value| <= index
    {
      var cursor := index;
      if cursor > |raw| {
        return Err(CursorPastEnd);
      }
      var first := SkipSpace(raw, cursor);
      if first == |raw| {
        return Err(EndOfFile);
      }
      var startChar := raw[first];
      var startIndex: nat, length: nat;
      if startChar == '\'' || startChar == '"' {
        startIndex := first + 1;
        if startIndex + 1 > |raw| {
          return Err(CursorPastEnd);
        }
        QuotedOutcome(raw, cursor, first);
        var close := Find(raw, startIndex + 1, startChar);
        if close == |raw| {
          return Err(if startChar == '\'' then MissingClosingSingleQuote else MissingClosingDoubleQuote);
        }
        length := 1 + (close - (startIndex + 1));
        assert startIndex + length == close;
      } else {
        startIndex := first;
        length := NextSpace(raw, startIndex) - startIndex;
      }
      var nextWhiteSpace := NextSpace(raw, startIndex + length);
      index := startIndex + length + (if nextWhiteSpace < |raw| then nextWhiteSpace - (startIndex + length) else |raw|);
      r := Ok(raw[startIndex..startIndex + length]);
    }

    /** `parse_nominal`: reads the `{…}` list at or after the cursor, yielding
        the first token of each comma-separated piece, and leaves the cursor
        just past the `}`. */
    method ParseNominal() returns (r: Result<Data, ParseError>)
      modifies this
      ensures ScanNominal(raw, old(index)).Err? ==> r == Err(ScanNominal(raw, old(index)).error) && index == old(index)
      ensures ScanNominal(raw, old(index)).Ok? ==>
                var ns := ScanNominal(raw, old(index)).value;
                r.Ok? && r.value.NominalData? && fresh(r.value.nominal) && r.value.nominal.Valid() &&
                r.value.nominal.fields == ns.fields && r.value.nominal.data == [] && index == ns.next
    {
      if index > |raw| {
        return Err(CursorPastEnd);
      }
      var open := Find(raw, index, '{');
      if open == |raw| {
        return Err(MissingOpeningBrace);
      }
      var close := Find(raw, open, '}');
      if close == |raw| {
        return Err(MissingClosingBrace);
      }
      var fields := FirstTokensOf(Split(raw[open + 1..close], ','));
      if fields.Err? {
        return Err(fields.error);
      }
      var nominal := new Nominal(fields.value);
      index := close + 1;
      r := Ok(NominalData(nominal));
    }

    /** `parse_attribute`: reads the label, then a nominal list when the next
        non-whitespace character is `{`, and otherwise a type keyword. */
    method ParseAttribute() returns (r: Result<Attribute, ParseError>)
      modifies this
      ensures ScanAttribute(raw, old(index)).Err? ==> r == Err(ScanAttribute(raw, old(index)).error)
      ensures ScanAttribute(raw, old(index)).Ok? ==>
                var a := ScanAttribute(raw, old(index)).value;
                r.Ok? && r.value.name == a.name && index == a.next &&
                match a.shape
                case NominalShape(fields) =>
                  r.value.data.NominalData? && fresh(r.value.data.nominal) && r.value.data.nominal.Valid() &&
                  r.value.data.nominal.fields == fields && r.value.data.nominal.data == []
                case KeywordShape(word) => r.value.data == DataFor(word)
    {
      var title := ParseString();
      if title.Err? {
        return Err(title.error);
      }
      if index > |raw| {
        return Err(CursorPastEnd);
      }
      var startIndex := SkipSpace(raw, index);
      if startIndex == |raw| {
        return Err(EndOfFile);
      }
      if raw[startIndex] == '{' {
        assert Find(raw, index, '{') == startIndex;
        var data := ParseNominal();
        if data.Err? {
          return Err(data.error);
        }
        r := Ok(Attribute(title.value, data.value));
      } else {
        var dataType := ParseString();
        if dataType.Err? {
          return Err(dataType.error);
        }
        r := Ok(Attribute(title.value, DataFor(dataType.value)));
      }
    }
  }

  // ---------------------------------------------------------------------------
  // Nominal value lists
  // ---------------------------------------------------------------------------

  /** `str::split`: the pieces of `s` between occurrences of `sep`; there is
      always at least one. */
  function Split(s: string, sep: char): (r: seq<string>)
    ensures |r| >= 1 && forall k :: 0 <= k < |r| ==> sep !in r[k]
    decreases |s|
  {
    var j := Find(s, 0, sep);
    if j == |s| then [s] else [s[..j]] + Split(s[j + 1..], sep)
  }

  /** The pieces put back together with `sep` between them. */
  function Join(pieces: seq<string>, sep: char): string
    requires |pieces| >= 1
  {
    if |pieces| == 1 then pieces[0] else pieces[0] + [sep] + Join(pieces[1..], sep)
  }

  /** Splitting loses nothing: joining the pieces gives the text back. */
  lemma {:induction false} SplitJoin(s: string, sep: char)
    ensures Join(Split(s, sep), sep) == s
    decreases |s|
  {
    var j := Find(s, 0, sep);
    if j < |s| {
      SplitJoin(s[j + 1..], sep);
      assert s == s[..j] + [sep] + s[j + 1..];
    }
  }

  /** Pieces free of the separator are what splitting their join gives. */
  lemma {:induction false} JoinSplit(pieces: seq<string>, sep: char)
    requires |pieces| >= 1 && forall k :: 0 <= k < |pieces| ==> sep !in pieces[k]
    ensures Split(Join(pieces, sep), sep) == pieces
    decreases |pieces|
  {
    var s := Join(pieces, sep);
    if |pieces| == 1 {
      assert Find(s, 0, sep) == |s|;
    } else {
      var head := pieces[0];
      assert s == head + [sep] + Join(pieces[1..], sep);
      assert sep !in head;
      assert Find(s, 0, sep) == |head| by {
        assert s[|head|] == sep;
        assert forall k :: 0 <= k < |head| ==> s[k] == head[k];
      }
      assert s[..|head|] == head;
      assert s[|head| + 1..] == Join(pieces[1..], sep);
      JoinSplit(pieces[1..], sep);
    }
  }

  /** `e` is the error of the first piece without a token. */
  ghost predicate FirstFailure(pieces: seq<string>, e: ParseError) {
    exists k :: 0 <= k < |pieces| && ScanString(pieces[k], 0) == Err(e) &&
      forall j :: 0 <= j < k ==> ScanString(pieces[j], 0).Ok?
  }

  /** The first token of each piece, in order; the first piece without a
      token makes the whole list fail. */
  function FirstTokens(pieces: seq<string>): (r: Result<seq<string>, ParseError>)
    ensures r.Ok? ==> |r.value| == |pieces|
    ensures r.Ok? ==> forall k :: 0 <= k < |pieces| ==>
              ScanString(pieces[k], 0).Ok? && r.value[k] == Token(pieces[k], ScanString(pieces[k], 0).value)
    ensures r.Err? ==> FirstFailure(pieces, r.error)
    decreases |pieces|
  {
    if pieces == [] then Ok([])
    else
      var last := pieces[|pieces| - 1];
      match FirstTokens(pieces[..|pieces| - 1])
      case Err(e) =>
        FirstFailureExtends(pieces, e);
        Err(e)
      case Ok(tokens) =>
        match ScanString(last, 0)
        case Err(e) =>
          FirstFailureAtLast(pieces, e);
          Err(e)
        case Ok(sc) => Ok(tokens + [Token(last, sc)])
  }

  /** A first failure in all but the last piece is the first failure of all. */
  lemma FirstFailureExtends(pieces: seq<string>, e: ParseError)
    requires |pieces| > 0 && FirstFailure(pieces[..|pieces| - 1], e)
    ensures FirstFailure(pieces, e)
  {
    var init := pieces[..|pieces| - 1];
    var k :| 0 <= k < |init| && ScanString(init[k], 0) == Err(e) &&
             forall j :: 0 <= j < k ==> ScanString(init[j], 0).Ok?;
    assert forall j :: 0 <= j <= k ==> init[j] == pieces[j];
  }

  /** The last piece fails first when every earlier piece holds a token. */
  lemma FirstFailureAtLast(pieces: seq<string>, e: ParseError)
    requires |pieces| > 0 && ScanString(pieces[|pieces| - 1], 0) == Err(e)
    requires forall j :: 0 <= j < |pieces| - 1 ==> ScanString(pieces[j], 0).Ok?
    ensures FirstFailure(pieces, e)
  {
    assert 0 <= |pieces| - 1 < |pieces|;
  }

  /** The `map`/`collect` of `parse_nominal`: a fresh parser per piece, whose
      first token is kept; the first failure ends the list. */
  method FirstTokensOf(pieces: seq<string>) returns (r: Result<seq<string>, ParseError>)
    ensures r == FirstTokens(pieces)
  {
    var fields: seq<string> := [];
    for k := 0 to |pieces|
      invariant FirstTokens(pieces[..k]) == Ok(fields)
    {
      assert pieces[..k + 1][..k] == pieces[..k];
      var word := new Parser(pieces[k], 0);
      var token := word.ParseString();
      if token.Err? {
        assert FirstTokens(pieces[..k + 1]) == Err(token.error);
        FirstTokensFail(pieces, k + 1);
        return Err(token.error);
      }
      fields := fields + [token.value];
    }
    assert pieces[..|pieces|] == pieces;
    r := Ok(fields);
  }

  /** A failing prefix makes the whole list fail with the same error. */
  lemma {:induction false} FirstTokensFail(pieces: seq<string>, n: nat)
    requires n <= |pieces| && FirstTokens(pieces[..n]).Err?
    ensures FirstTokens(pieces) == FirstTokens(pieces[..n])
    decreases |pieces| - n
  {
    if n < |pieces| {
      assert pieces[..n + 1][..n] == pieces[..n];
      FirstTokensFail(pieces, n + 1);
    } else {
      assert pieces[..n] == pieces;
    }
  }

  /** A nominal list read by `parse_nominal`. */
  datatype NominalScan = NominalScan(fields: seq<string>, next: nat)

  /** What `parse_nominal` reads from position `i`: the first tokens of the
      comma-separated pieces between the first `{` at or after `i` and the
      first `}` after it. */
  function ScanNominal(s: string, i: nat): (r: Result<NominalScan, ParseError>)
    ensures r.Ok? ==> i < r.value.next <= |s| && s[r.value.next - 1] == '}'
  {
    if i > |s| then Err(CursorPastEnd)
    else
      var open := Find(s, i, '{');
      if open == |s| then Err(MissingOpeningBrace)
      else
        var close := Find(s, open, '}');
        if close == |s| then Err(MissingClosingBrace)
        else
          match FirstTokens(Split(s[open + 1..close], ','))
          case Err(e) => Err(e)
          case Ok(fields) => Ok(NominalScan(fields, close + 1))
  }

  /** `a, b` splits at its comma into `a` and ` b`. */
  lemma SplitExample()
    ensures Split("a, b", ',') == ["a", " b"]
  {
    assert Find("a, b", 0, ',') == 1;
    assert "a, b"[..1] == "a" && "a, b"[2..] == " b";
    assert Find(" b", 0, ',') == 2;
  }

  /** The pieces `a` and ` b` hold the tokens `a` and `b`. */
  lemma FirstTokensExample()
    ensures FirstTokens(["a", " b"]) == Ok(["a", "b"])
  {
    var a := Token("a", Scan(0, 1, 2));
    var b := Token(" b", Scan(1, 2, 4));
    assert ScanString("a", 0) == Ok(Scan(0, 1, 2)) && a == "a" by {
      assert NextSpace("a", 0) == 1;
    }
    assert ScanString(" b", 0) == Ok(Scan(1, 2, 4)) && b == "b" by {
      assert SkipSpace(" b", 0) == 1;
      assert NextSpace(" b", 1) == 2;
    }
    var none: seq<string> := [];
    var one: seq<string> := ["a"];
    var two: seq<string> := ["a", " b"];
    assert one[..|one| - 1] == none && two[..|two| - 1] == one;
    assert FirstTokens(none) == Ok([]);
    assert FirstTokens(one) == Ok(none + [a]);
    assert FirstTokens(two) == Ok(none + [a] + [b]);
    assert none + [a] + [b] == ["a", "b"];
  }

  /** The list `{a, b}` declares the values `a` and `b`, and the cursor ends
      just past the brace. */
  lemma NominalExample()
    ensures ScanNominal("{a, b}", 0) == Ok(NominalScan(["a", "b"], 6))
  {
    var s := "{a, b}";
    assert Find(s, 0, '{') == 0;
    assert Find(s, 0, '}') == 5;
    assert s[1..5] == "a, b";
    SplitExample();
    FirstTokensExample();
  }

  /** An empty list `{}` has one empty piece, which holds no token. */
  lemma EmptyNominalFails()
    ensures ScanNominal("{}", 0) == Err(EndOfFile)
  {
    var s := "{}";
    assert Find(s, 0, '{') == 0;
    assert Find(s, 0, '}') == 1;
    assert Split("", ',') == [""];
  }

  /** From `i`, a text whose first `{` is at `open` and whose first `}`
      after it is at `close` reads exactly the first tokens of the
      comma-separated pieces between the braces, or fails with the error of
      the first piece that has none; the cursor ends just past the `}`. */
  lemma ScanNominalAt(s: string, i: nat, open: nat, close: nat)
    requires i <= open < close < |s| && s[open] == '{' && s[close] == '}'
    requires '{' !in s[i..open] && '}' !in s[open + 1..close]
    ensures ScanNominal(s, i) ==
            match FirstTokens(Split(s[open + 1..close], ','))
            case Ok(fields) => Ok(NominalScan(fields, close + 1))
            case Err(e) => Err(e)
  {
    FindAt(s, i, '{', open);
    FindAt(s, open + 1, '}', close);
    assert Find(s, open, '}') == close;
    NominalBetween(s, i, open, close);
  }

  /** `ScanNominal` once both searches have succeeded. */
  lemma NominalBetween(s: string, i: nat, open: nat, close: nat)
    requires i <= open < |s| && Find(s, i, '{') == open
    requires close < |s| && Find(s, open, '}') == close
    ensures ScanNominal(s, i) ==
            match FirstTokens(Split(s[open + 1..close], ','))
            case Ok(fields) => Ok(NominalScan(fields, close + 1))
            case Err(e) => Err(e)
  {
  }

  /** The search stops at the first occurrence: a `c` at `j` with none
      between `i` and `j` is what `Find` answers. */
  lemma FindAt(s: string, i: nat, c: char, j: nat)
    requires i <= j < |s| && s[j] == c && c !in s[i..j]
    ensures Find(s, i, c) == j
  {
  }

  // ---------------------------------------------------------------------------
  // Attribute declarations
  // ---------------------------------------------------------------------------

  /** The kind an attribute declaration announces. */
  datatype Shape = NominalShape(fields: seq<string>) | KeywordShape(word: string)

  /** An attribute declaration read by `parse_attribute`. */
  datatype AttributeScan = AttributeScan(name: string, shape: Shape, next: nat)

  /** What `parse_attribute` reads from position `i`: a label token, then a
      nominal list if the next non-whitespace character is `{`, and otherwise
      a type token. */
  function ScanAttribute(s: string, i: nat): (r: Result<AttributeScan, ParseError>)
    ensures r.Ok? ==> i <= r.value.next
  {
    match ScanString(s, i)
    case Err(e) => Err(e)
    case Ok(l) =>
      if l.next > |s| then Err(CursorPastEnd)
      else
        var j := SkipSpace(s, l.next);
        if j == |s| then Err(EndOfFile)
        else if s[j] == '{' then
          match ScanNominal(s, l.next)
          case Err(e) => Err(e)
          case Ok(ns) => Ok(AttributeScan(Token(s, l), NominalShape(ns.fields), ns.next))
        else
          match ScanString(s, l.next)
          case Err(e) => Err(e)
          case Ok(t) => Ok(AttributeScan(Token(s, l), KeywordShape(Token(s, t)), t.next))
  }

  /** An attribute's values: numeric and real columns of floats, a nominal
      column of ids, strings, dates, or a type the importer does not know. */
  datatype Data =
    | Numeric(values: seq<F32>)
    | Real(values: seq<F32>)
    | NominalData(nominal: Nominal)
    | Strings(strings: seq<string>)
    | Dates(stamps: seq<nat>)
    | NotImplemented(typeName: string)

  /** An attribute declaration and its column. */
  datatype Attribute = Attribute(name: string, data: Data)

  /** The type keywords `parse_attribute` knows. */
  const Keywords: set<string> := {"numeric", "string", "date", "real"}

  /** The empty column a type keyword announces; an unknown word is kept as
      the name of a type that is not implemented. */
  function DataFor(word: string): (d: Data)
    ensures word !in Keywords <==> d == NotImplemented(word)
    ensures word in Keywords ==>
              (d.Numeric? <==> word == "numeric") && (d.Strings? <==> word == "string") &&
              (d.Dates? <==> word == "date") && (d.Real? <==> word == "real")
    ensures d.Numeric? || d.Real? ==> d.values == []
    ensures d.Strings? ==> d.strings == []
    ensures d.Dates? ==> d.stamps == []
  {
    match word
    case "numeric" => Numeric([])
    case "string" => Strings([])
    case "date" => Dates([])
    case "real" => Real([])
    case _ => NotImplemented(word)
  }

  /** A declaration `name {a, b}` reads the label `name` and the values `a`
      and `b`. */
  lemma NominalAttributeExample()
    ensures ScanAttribute("name {a, b}", 0) == Ok(AttributeScan("name", NominalShape(["a", "b"]), 11))
  {
    LabelName();
    NominalAfterName();
    assert SkipSpace("name {a, b}", 4) == 5;
  }

  /** The label of `name {a, b}`. */
  lemma LabelName()
    ensures ScanString("name {a, b}", 0) == Ok(Scan(0, 4, 4))
    ensures Token("name {a, b}", Scan(0, 4, 4)) == "name"
  {
    assert NextSpace("name {a, b}", 0) == 4;
  }

  /** The list after the label of `name {a, b}`. */
  lemma NominalAfterName()
    ensures ScanNominal("name {a, b}", 4) == Ok(NominalScan(["a", "b"], 11))
  {
    var s := "name {a, b}";
    assert Find(s, 4, '{') == 5;
    assert Find(s, 5, '}') == 10;
    assert s[6..10] == "a, b";
    SplitExample();
    FirstTokensExample();
  }

  /** A declaration `age numeric` reads the label `age` and a numeric column;
      the cursor overshoots the end of the line because nothing follows. */
  lemma KeywordAttributeExample()
    ensures ScanAttribute("age numeric", 0) == Ok(AttributeScan("age", KeywordShape("numeric"), 22))
  {
    var t := "age numeric";
    LabelAge();
    KeywordNumeric();
    assert SkipSpace(t, 3) == 4;
  }

  /** The label of `age numeric`. */
  lemma LabelAge()
    ensures ScanString("age numeric", 0) == Ok(Scan(0, 3, 3))
    ensures Token("age numeric", Scan(0, 3, 3)) == "age"
  {
    assert NextSpace("age numeric", 0) == 3;
  }

  /** The type keyword of `age numeric`. */
  lemma KeywordNumeric()
    ensures ScanString("age numeric", 3) == Ok(Scan(4, 11, 22))
    ensures Token("age numeric", Scan(4, 11, 22)) == "numeric"
  {
    var t := "age numeric";
    assert SkipSpace(t, 3) == 4;
    assert NextSpace(t, 4) == 11;
  }

  // ---------------------------------------------------------------------------
  // Nominal coding table
  // ---------------------------------------------------------------------------

  /** The id map `Nominal::new` builds: each field maps to its position,
      truncated to 8 bits, and a later duplicate overwrites an earlier one. */
  function IdMap(fields: seq<string>): (m: map<string, u8>)
    ensures forall f :: f in m <==> f in fields
    ensures forall f :: f in m ==> m[f] < |fields|
    decreases |fields|
  {
    if fields == [] then map[]
    else
      var n := |fields| - 1;
      IdMap(fields[..n])[fields[n] := n % 256]
  }

  /** The position of the last occurrence of `f`. */
  function LastIndex(fields: seq<string>, f: string): (j: nat)
    requires f in fields
    ensures j < |fields| && fields[j] == f && forall k :: j < k < |fields| ==> fields[k] != f
  {
    if fields[|fields| - 1] == f then |fields| - 1 else LastIndex(fields[..|fields| - 1], f)
  }

  /** A field's id is the position of its last occurrence, truncated to 8
      bits. */
  lemma {:induction false} IdMapLast(fields: seq<string>, f: string)
    requires f in fields
    ensures IdMap(fields)[f] == LastIndex(fields, f) % 256
    decreases |fields|
  {
    var n := |fields| - 1;
    if fields[n] != f {
      assert f in fields[..n] by {
        var k :| 0 <= k < |fields| && fields[k] == f;
        assert fields[..n][k] == f;
      }
      IdMapLast(fields[..n], f);
    }
  }

  /** With at most 256 fields, looking a field's id up in the field list gives
      the field back. */
  lemma IdRoundTrip(fields: seq<string>, f: string)
    requires |fields| <= 256 && f in fields
    ensures fields[IdMap(fields)[f]] == f
  {
    IdMapLast(fields, f);
    SmallId(LastIndex(fields, f));
  }

  /** A position below 256 is its own 8-bit truncation. */
  lemma SmallId(j: nat)
    requires j < 256
    ensures j % 256 == j
  {
  }

  /** An id in use names a field; with at most 256 fields that field maps
      back to it, so looking a field up by id and its id up in the map is the
      identity on ids. */
  lemma IdLookup(fields: seq<string>, id: u8)
    requires id in IdMap(fields).Values
    ensures id < |fields|
    ensures |fields| <= 256 ==> IdMap(fields)[fields[id]] == id
  {
    var f :| f in IdMap(fields) && IdMap(fields)[f] == id;
    if |fields| <= 256 {
      IdMapLast(fields, f);
      SmallId(LastIndex(fields, f));
    }
  }

  /** With more than 256 distinct fields the ids wrap: field 256 gets the id
      of field 0, and looking it up gives field 0. */
  lemma IdWraps(fields: seq<string>)
    requires |fields| > 256 && forall i, j :: 0 <= i < j < |fields| ==> fields[i] != fields[j]
    ensures IdMap(fields)[fields[256]] == 0 && fields[IdMap(fields)[fields[256]]] != fields[256]
  {
    IdMapLast(fields, fields[256]);
  }

  /** The panic of `Nominal::push` on a value that was not declared. */
  datatype PushError = ValueNotDeclared

  /** The coding table of a nominal attribute: its declared values, the
      column of ids and the map from value to id. */
  class Nominal {
    var fields: seq<string>
    var data: seq<u8>
    var ids: map<string, u8>

    /** The map is the one built from the fields, and every stored id names a
        field. */
    ghost predicate Valid()
      reads this
    {
      ids == IdMap(fields) && forall k :: 0 <= k < |data| ==> data[k] < |fields| && data[k] in ids.Values
    }

    /** `Nominal::new`: inserts each field with its position as id, in order,
        and starts with an empty column. */
    constructor (fields: seq<string>)
      ensures Valid() && this.fields == fields && data == []
    {
      this.fields := fields;
      data := [];
      var m: map<string, u8> := map[];
      for k := 0 to |fields|
        invariant m == IdMap(fields[..k])
      {
        assert fields[..k + 1][..k] == fields[..k];
        m := m[fields[k] := k % 256];
      }
      assert fields[..|fields|] == fields;
      ids := m;
    }

    /** `Nominal::push`: appends the id of a declared value and fails on any
        other value. With at most 256 fields the new last entry reads back as
        the pushed value. */
    method Push(value: string) returns (r: Result<(), PushError>)
      requires Valid()
      modifies this
      ensures Valid() && fields == old(fields) && ids == old(ids)
      ensures r.Ok? <==> value in fields
      ensures r.Ok? ==> data == old(data) + [ids[value]]
      ensures r.Err? ==> data == old(data)
      ensures r.Ok? && |fields| <= 256 ==> Get(|data| - 1) == Some(value)
    {
      if value !in ids {
        return Err(ValueNotDeclared);
      }
      data := data + [ids[value]];
      if |fields| <= 256 {
        IdRoundTrip(fields, value);
      }
      r := Ok(());
    }

    /** `Nominal::size`: the number of distinct declared values. */
    function Size(): (n: nat)
      requires Valid()
      reads this
      ensures n == |set f | f in fields|
    {
      assert ids.Keys == set f | f in fields;
      |ids|
    }

    /** `Nominal::get`: the declared value of the `index`-th entry; an index
        past the column panics (here `None`). */
    function Get(index: nat): (r: Option<string>)
      requires Valid()
      reads this
      ensures r.None? <==> index >= |data|
      ensures r.Some? ==> r.value in fields && IdMap(fields)[r.value] == LastIndex(fields, r.value) % 256
      ensures r.Some? ==> r.value == fields[data[index]]
      ensures r.Some? && |fields| <= 256 ==> ids[r.value] == data[index]
    {
      if index < |data| then
        var f := fields[data[index]];
        IdMapLast(fields, f);
        IdLookup(fields, data[index]);
        Some(f)
      else None
    }
  }

  // ---------------------------------------------------------------------------
  // Data set
  // ---------------------------------------------------------------------------

  /** A relation name and its attributes with their columns. */
  datatype DataSet = DataSet(relation: string, attributes: seq<Attribute>)

  /** `DataSet::get_data_len`: the number of rows, read from the first
      attribute's column; no attributes means no rows, and a first column of
      strings, dates or an unknown type panics (here `None`). */
  function GetDataLen(ds: DataSet): (r: Option<nat>)
    reads if |ds.attributes| > 0 && ds.attributes[0].data.NominalData? then {ds.attributes[0].data.nominal} else {}
    ensures |ds.attributes| == 0 ==> r == Some(0)
    ensures |ds.attributes| > 0 ==>
              var d := ds.attributes[0].data;
              (r.None? <==> d.Strings? || d.Dates? || d.NotImplemented?) &&
              (d.NominalData? ==> r == Some(|d.nominal.data|)) &&
              (d.Numeric? || d.Real? ==> r == Some(|d.values|))
  {
    if |ds.attributes| == 0 then Some(0)
    else
      match ds.attributes[0].data
      case NominalData(nominal) => Some(|nominal.data|)
      case Real(values) => Some(|values|)
      case Numeric(values) => Some(|values|)
      case _ => None
  }
}
