/** The row filter of the `rows` command: the comparative-expression parser,
    the run-time typing of cells, the comparison policy and the selection of
    one row (rows.go). */
module Rows {
  import opened Wrappers
  import opened Runes
  import opened Strconv

  // ---------------------------------------------------------------------
  // Data model
  // ---------------------------------------------------------------------

  /** The comparative operators, in the order of their Go constants. */
  datatype Op = Equal | Diff | Great | GreatEqual | Less | LessEqual

  /** A dynamically typed cell or literal: a float64 or a string. */
  datatype Value = Num(x: real) | Str(s: string)

  /** A parsed expression.  `left` and `right` are `cols[0]` and `cols[1]`:
      header indices, with -1 for "no column"; `value` is the literal right
      operand, `None` when the right operand was a column name. */
  datatype Expression = Expression(left: int, right: int, op: Op, value: Option<Value>)

  /** The ways parsing fails: the reader's io.EOF, an unknown operator text,
      a number strconv rejects, and a left column missing from the header. */
  datatype ParseError = EndOfInput | UnknownOperand(text: string) | BadNumber(text: string) | UnknownColumn

  // ---------------------------------------------------------------------
  // Rune classes of the expression language
  // ---------------------------------------------------------------------

  predicate IsOpChar(c: char) {
    c == '=' || c == '!' || c == '>' || c == '<'
  }

  predicate NotOpChar(c: char) {
    !IsOpChar(c)
  }

  /** A column name ends at a space or at an operator rune. */
  predicate NameStop(c: char) {
    IsSpace(c) || IsOpChar(c)
  }

  predicate IsQuote(c: char) {
    c == '"'
  }

  /** The first rune of a number, both in an expression and in a cell. */
  predicate IsNumStart(c: char) {
    IsDigit(c) || c == '-' || c == '.'
  }

  /** The operator spelled by an accumulated operator text. */
  function OperatorOf(t: string): Option<Op> {
    if t == "==" then Some(Equal)
    else if t == "!=" then Some(Diff)
    else if t == ">" then Some(Great)
    else if t == ">=" then Some(GreatEqual)
    else if t == "<" then Some(Less)
    else if t == "<=" then Some(LessEqual)
    else None
  }

  /** How an operator is written; the inverse of OperatorOf. */
  function OpText(op: Op): (t: string)
    ensures OperatorOf(t) == Some(op)
  {
    match op
    case Equal => "=="
    case Diff => "!="
    case Great => ">"
    case GreatEqual => ">="
    case Less => "<"
    case LessEqual => "<="
  }

  // ---------------------------------------------------------------------
  // Reference definition of parsing
  // ---------------------------------------------------------------------

  /** The index of the last header entry equal to `name`, or -1. */
  function LastIndex(header: seq<string>, name: string): (r: int)
    ensures -1 <= r < |header|
    ensures r == -1 <==> name !in header
    ensures r != -1 ==> header[r] == name && name !in header[r + 1..]
  {
    if |header| == 0 then -1
    else if header[|header| - 1] == name then |header| - 1
    else
      assert header == header[..|header| - 1] + [header[|header| - 1]];
      LastIndex(header[..|header| - 1], name)
  }

  /** Resolves the left and right names against the header; only the left
      one must be found. */
  function Resolve(header: seq<string>, col1: string, op: Op, value: Option<Value>, col2: string): (r: Result<Expression, ParseError>)
    ensures r.Failure? <==> col1 !in header
    ensures r.Failure? ==> r.error == UnknownColumn
    ensures r.Success? ==> r.value.op == op && r.value.value == value
    ensures r.Success? ==> 0 <= r.value.left < |header| && header[r.value.left] == col1
    ensures r.Success? ==> r.value.left == LastIndex(header, col1) && r.value.right == LastIndex(header, col2)
  {
    var left := LastIndex(header, col1);
    if left == -1 then Failure(UnknownColumn)
    else Success(Expression(left, LastIndex(header, col2), op, value))
  }

  /** The right operand starting at `q`: a literal with an empty right
      column name, or no literal with a non-empty right column name. */
  function RightOperand(s: string, q: nat): (r: Result<(Option<Value>, string), ParseError>)
    requires q < |s|
    ensures r.Success? ==> (r.value.0.Some? <==> r.value.1 == [])
    ensures r.Failure? ==> IsNumStart(s[q]) && r.error.BadNumber?
  {
    if s[q] == '"' then
      var e := Find(s, q + 1, IsQuote);
      Success((Some(Str(s[q + 1..e])), []))
    else
      var e := Find(s, q + 1, IsSpace);
      if IsNumStart(s[q]) then
        match ParseFloat(s[q..e])
        case None => Failure(BadNumber(s[q..e]))
        case Some(x) => Success((Some(Num(x)), []))
      else Success((None, s[q..e]))
  }

  /** The column name at the start of `s` and the position of the
      operator after it; `None` when the text ends first (io.EOF). */
  function ScanName(s: string): (r: Option<(string, nat)>)
    ensures r.Some? ==> |r.value.0| <= r.value.1 < |s| && r.value.0 == s[..|r.value.0|]
    ensures r.Some? ==> forall k :: 0 <= k < |r.value.0| ==> !NameStop(r.value.0[k])
  {
    var n := Find(s, 0, NameStop);
    if n == |s| then None
    else
      var p := if IsSpace(s[n]) then Find(s, n + 1, NotSpace) else n;
      if p == |s| then None else Some((s[..n], p))
  }

  /** The operator text starting at `p` and the position of the right
      operand after it; `None` when the text ends first (io.EOF). */
  function ScanOperator(s: string, p: nat): (r: Option<(string, nat)>)
    requires p <= |s|
    ensures r.Some? ==> p + |r.value.0| <= r.value.1 < |s| && r.value.0 == s[p..p + |r.value.0|]
    ensures r.Some? ==> forall k :: 0 <= k < |r.value.0| ==> IsOpChar(r.value.0[k])
  {
    var o := Find(s, p, NotOpChar);
    if o == |s| then None
    else
      var q := if IsSpace(s[o]) then Find(s, o + 1, NotSpace) else o;
      if q == |s| then None else Some((s[p..o], q))
  }

  /** What parseExpression returns for the text `s`: the column name, the
      operator text and the right operand, in that order, then the names
      resolved against the header. */
  function Parse(header: seq<string>, s: string): (r: Result<Expression, ParseError>)
    ensures r.Success? ==> 0 <= r.value.left < |header| && -1 <= r.value.right < |header|
    ensures r.Success? && r.value.value.Some? ==> r.value.right == LastIndex(header, "")
  {
    match ScanName(s)
    case None => Failure(EndOfInput)
    case Some((col1, p)) =>
      match ScanOperator(s, p)
      case None => Failure(EndOfInput)
      case Some((t, q)) =>
        match OperatorOf(t)
        case None => Failure(UnknownOperand(t))
        case Some(op) =>
          match RightOperand(s, q)
          case Failure(err) => Failure(err)
          case Success((value, col2)) => Resolve(header, col1, op, value, col2)
  }

  // ---------------------------------------------------------------------
  // The parser as the source runs it: rune by rune on a reader
  // ---------------------------------------------------------------------

  /** A `strings.Reader` over the expression text: a read position, and the
      position before the last successful ReadRune (-1 when UnreadRune is
      not allowed). */
  class RuneReader {
    const text: string
    var pos: nat
    var prevRune: int

    ghost predicate Valid()
      reads this
    {
      pos <= |text| && (prevRune == -1 || prevRune == pos - 1)
    }

    constructor (s: string)
      ensures text == s && pos == 0 && prevRune == -1 && Valid()
    {
      text := s;
      pos := 0;
      prevRune := -1;
    }

    /** The next rune, or `None` for io.EOF. */
    method ReadRune() returns (r: Option<char>)
      requires Valid()
      modifies this
      ensures Valid()
      ensures old(pos) < |text| ==> r == Some(text[old(pos)]) && pos == old(pos) + 1 && prevRune == old(pos)
      ensures old(pos) == |text| ==> r == None && pos == old(pos) && prevRune == -1
    {
      if pos == |text| {
        prevRune := -1;
        r := None;
      } else {
        prevRune := pos;
        r := Some(text[pos]);
        pos := pos + 1;
      }
    }

    /** Steps back over the rune just read. */
    method UnreadRune()
      requires Valid() && prevRune >= 0
      modifies this
      ensures Valid() && pos == old(pos) - 1 && prevRune == -1
    {
      pos := prevRune;
      prevRune := -1;
    }
  }

  /** Skips a run of spaces, leaving the reader on the first other rune;
      reaching the end of the text is io.EOF. */
  method SkipExpressionSpaces(r: RuneReader) returns (err: Option<ParseError>)
    requires r.Valid()
    modifies r
    ensures r.Valid()
    ensures var j := Find(r.text, old(r.pos), NotSpace);
            if j < |r.text| then err == None && r.pos == j
            else err == Some(EndOfInput) && r.pos == |r.text|
  {
    while true
      invariant r.Valid() && old(r.pos) <= r.pos
      invariant forall k :: old(r.pos) <= k < r.pos ==> IsSpace(r.text[k])
      decreases |r.text| - r.pos
    {
      var c := r.ReadRune();
      if c.None? {
        FindIs(r.text, old(r.pos), NotSpace, r.pos);
        return Some(EndOfInput);
      }
      if !IsSpace(c.value) {
        r.UnreadRune();
        FindIs(r.text, old(r.pos), NotSpace, r.pos);
        return None;
      }
    }
  }

  /** Accumulates `first` (the rune just read) and the runes after it, up
      to a space or the end of the text; the space is consumed. */
  method ReadToSpace(r: RuneReader, first: char) returns (word: string)
    requires r.Valid() && 0 < r.pos && r.text[r.pos - 1] == first
    modifies r
    ensures r.Valid()
    ensures word == r.text[old(r.pos) - 1..Find(r.text, old(r.pos), IsSpace)]
    ensures r.pos == PastStop(r.text, old(r.pos), IsSpace)
  {
    var r1 := first;
    word := [];
    while true
      invariant r.Valid() && old(r.pos) <= r.pos
      invariant r1 == r.text[r.pos - 1]
      invariant word == r.text[old(r.pos) - 1..r.pos - 1]
      invariant forall k :: old(r.pos) <= k < r.pos ==> !IsSpace(r.text[k])
      decreases |r.text| - r.pos
    {
      word := word + [r1];
      var c := r.ReadRune();
      if c.None? {
        FindIs(r.text, old(r.pos), IsSpace, r.pos);
        break;
      }
      r1 := c.value;
      if IsSpace(r1) {
        FindIs(r.text, old(r.pos), IsSpace, r.pos - 1);
        break;
      }
    }
  }

  /** The column-name loop of parseExpression, run from the start of the
      text: the name, with the reader left on the operator. */
  method ReadColumnName(r: RuneReader) returns (err: Option<ParseError>, name: string)
    requires r.Valid() && r.pos == 0
    modifies r
    ensures r.Valid()
    ensures ScanName(r.text).None? ==> err == Some(EndOfInput)
    ensures ScanName(r.text).Some? ==> err == None && ScanName(r.text).value == (name, r.pos)
  {
    ghost var s := r.text;
    name := [];
    while true
      invariant r.Valid()
      invariant name == s[..r.pos]
      invariant forall k :: 0 <= k < r.pos ==> !NameStop(s[k])
      decreases |s| - r.pos
    {
      var c := r.ReadRune();
      if c.None? {
        NameToEnd(s);
        return Some(EndOfInput), name;
      }
      var r1 := c.value;
      if IsSpace(r1) {
        ghost var n := r.pos - 1;
        err := SkipExpressionSpaces(r);
        NameBeforeSpace(s, n, r.pos);
        return;
      }
      if IsOpChar(r1) {
        r.UnreadRune();
        NameBefore(s, r.pos);
        return None, name;
      }
      name := name + [r1];
    }
  }

  /** ScanName over a text that ends inside the column name. */
  lemma NameToEnd(s: string)
    requires forall k :: 0 <= k < |s| ==> !NameStop(s[k])
    ensures ScanName(s) == None
  {
    FindIs(s, 0, NameStop, |s|);
  }

  /** ScanName when the name is followed directly by an operator rune at
      `n`. */
  lemma NameBefore(s: string, n: nat)
    requires n < |s|
    requires forall k :: 0 <= k < n ==> !NameStop(s[k])
    requires IsOpChar(s[n])
    ensures ScanName(s) == Some((s[..n], n))
  {
    FindIs(s, 0, NameStop, n);
  }

  /** ScanName when the name is followed by a space at `n` and the spaces
      after it end at `p`. */
  lemma NameBeforeSpace(s: string, n: nat, p: nat)
    requires n < |s|
    requires forall k :: 0 <= k < n ==> !NameStop(s[k])
    requires IsSpace(s[n]) && p == Find(s, n + 1, NotSpace)
    ensures ScanName(s) == if p == |s| then None else Some((s[..n], p))
  {
    FindIs(s, 0, NameStop, n);
  }

  /** The operator loop of parseExpression: every operator rune from the
      reader's position, with the reader left on the right operand. */
  method ReadOperator(r: RuneReader) returns (err: Option<ParseError>, opText: string)
    requires r.Valid()
    modifies r
    ensures r.Valid()
    ensures ScanOperator(r.text, old(r.pos)).None? ==> err == Some(EndOfInput)
    ensures ScanOperator(r.text, old(r.pos)).Some? ==> err == None && ScanOperator(r.text, old(r.pos)).value == (opText, r.pos)
  {
    ghost var s, p := r.text, r.pos;
    opText := [];
    while true
      invariant r.Valid() && p <= r.pos
      invariant opText == s[p..r.pos]
      invariant forall k :: p <= k < r.pos ==> IsOpChar(s[k])
      decreases |s| - r.pos
    {
      var c := r.ReadRune();
      if c.None? {
        OperatorToEnd(s, p);
        return Some(EndOfInput), opText;
      }
      var r1 := c.value;
      if IsSpace(r1) {
        ghost var o := r.pos - 1;
        err := SkipExpressionSpaces(r);
        OperatorBeforeSpace(s, p, o, r.pos);
        return;
      }
      if r1 == '"' {
        r.UnreadRune();
        break;
      }
      if IsNumStart(r1) {
        r.UnreadRune();
        break;
      }
      if !IsOpChar(r1) {
        r.UnreadRune();
        break;
      }
      opText := opText + [r1];
    }
    OperatorBefore(s, p, r.pos);
    return None, opText;
  }

  /** ScanOperator over a text that ends inside the operator run. */
  lemma OperatorToEnd(s: string, p: nat)
    requires p <= |s|
    requires forall k :: p <= k < |s| ==> IsOpChar(s[k])
    ensures ScanOperator(s, p) == None
  {
    FindIs(s, p, NotOpChar, |s|);
  }

  /** ScanOperator when the operator run is followed directly by the right
      operand at `o`. */
  lemma OperatorBefore(s: string, p: nat, o: nat)
    requires p <= o < |s|
    requires forall k :: p <= k < o ==> IsOpChar(s[k])
    requires !IsOpChar(s[o]) && !IsSpace(s[o])
    ensures ScanOperator(s, p) == Some((s[p..o], o))
  {
    FindIs(s, p, NotOpChar, o);
  }

  /** ScanOperator when the operator run is followed by a space at `o` and
      the spaces after it end at `q`. */
  lemma OperatorBeforeSpace(s: string, p: nat, o: nat, q: nat)
    requires p <= o < |s| && o + 1 <= |s|
    requires forall k :: p <= k < o ==> IsOpChar(s[k])
    requires IsSpace(s[o]) && q == Find(s, o + 1, NotSpace)
    ensures ScanOperator(s, p) == if q == |s| then None else Some((s[p..o], q))
  {
    FindIs(s, p, NotOpChar, o);
  }

  /** The right-operand part of parseExpression: a quoted string, a number
      or a column name, decided by the first rune. */
  method ReadRightOperand(r: RuneReader) returns (res: Result<(Option<Value>, string), ParseError>)
    requires r.Valid() && r.pos < |r.text|
    modifies r
    ensures r.Valid()
    ensures res == RightOperand(r.text, old(r.pos))
    ensures r.pos == PastStop(r.text, old(r.pos) + 1, if r.text[old(r.pos)] == '"' then IsQuote else IsSpace)
  {
    ghost var s, q := r.text, r.pos;
    var c := r.ReadRune();
    var r1 := c.value;
    if r1 == '"' {
      // an opening quote: a string literal
      var b := ReadQuoted(r);
      return Success((Some(Str(b)), []));
    } else if IsNumStart(r1) {
      // a number literal, up to the next space
      var b := ReadToSpace(r, r1);
      var x := ParseFloat(b);
      if x.None? {
        return Failure(BadNumber(b));
      }
      return Success((Some(Num(x.value)), []));
    } else {
      // otherwise the name of a right column, up to the next space
      var b := ReadToSpace(r, r1);
      return Success((None, b));
    }
  }

  /** The runes after an opening quote, up to the closing quote or the end
      of the text; the closing quote is consumed. */
  method ReadQuoted(r: RuneReader) returns (b: string)
    requires r.Valid()
    modifies r
    ensures r.Valid()
    ensures b == r.text[old(r.pos)..Find(r.text, old(r.pos), IsQuote)]
    ensures r.pos == PastStop(r.text, old(r.pos), IsQuote)
  {
    ghost var s, q := r.text, r.pos;
    b := [];
    while true
      invariant r.Valid() && q <= r.pos
      invariant b == s[q..r.pos]
      invariant forall k :: q <= k < r.pos ==> !IsQuote(s[k])
      decreases |s| - r.pos
    {
      var c := r.ReadRune();
      if c.None? {
        FindIs(s, q, IsQuote, r.pos);
        return;
      }
      if IsQuote(c.value) {
        FindIs(s, q, IsQuote, r.pos - 1);
        return;
      }
      b := b + [c.value];
    }
  }

  /** The header loop of parseExpression: it does not stop at a match, so
      each name ends up with its last index in the header, or -1. */
  method ResolveColumns(header: seq<string>, col1: string, col2: string) returns (left: int, right: int)
    ensures left == LastIndex(header, col1) && right == LastIndex(header, col2)
  {
    left, right := -1, -1;
    for i := 0 to |header|
      invariant left == LastIndex(header[..i], col1)
      invariant right == LastIndex(header[..i], col2)
    {
      LastIndexStep(header, i, col1);
      LastIndexStep(header, i, col2);
      if header[i] == col1 {
        left := i;
      }
      if header[i] == col2 {
        right := i;
      }
    }
    assert header[..|header|] == header;
  }

  /** One more header entry: it is the last match when it matches. */
  lemma LastIndexStep(header: seq<string>, i: nat, name: string)
    requires i < |header|
    ensures LastIndex(header[..i + 1], name) == if header[i] == name then i else LastIndex(header[..i], name)
  {
    assert header[..i + 1][..i] == header[..i];
  }

  /** parseExpression: reads `columnName operator rhs` from the text and
      resolves the names against the header. */
  method ParseExpression(header: seq<string>, text: string) returns (res: Result<Expression, ParseError>)
    ensures res == Parse(header, text)
  {
    var r := new RuneReader(text);
    var err, col1 := ReadColumnName(r);
    if err.Some? {
      return Failure(err.value);
    }
    var opText;
    err, opText := ReadOperator(r);
    if err.Some? {
      return Failure(err.value);
    }
    var op := OperatorOf(opText);
    if op.None? {
      return Failure(UnknownOperand(opText));
    }
    // both loops above stop on a rune that is still unread, so reading
    // the right operand cannot meet the end of the text
    var rhs := ReadRightOperand(r);
    if rhs.Failure? {
      return Failure(rhs.error);
    }
    var val, col2 := rhs.value.0, rhs.value.1;
    var left, right := ResolveColumns(header, col1, col2);
    if left == -1 {
      return Failure(UnknownColumn);
    }
    return Success(Expression(left, right, op.value, val));
  }

  // ---------------------------------------------------------------------
  // Evaluation
  // ---------------------------------------------------------------------

  /** getFieldValue: a cell is a number when its first rune starts a number
      and the whole cell parses; otherwise it is the cell's text.  The source
      indexes the first rune, so an empty cell panics. */
  function GetFieldValue(field: string): (v: Value)
    requires |field| > 0
    ensures v.Num? <==> IsNumStart(field[0]) && ParseFloat(field).Some?
    ensures v.Num? ==> ParseFloat(field) == Some(v.x)
    ensures v.Str? ==> v.s == field
  {
    if IsNumStart(field[0]) && ParseFloat(field).Some? then Num(ParseFloat(field).value)
    else Str(field)
  }

  /** Go's `<` on strings: lexicographic order of the runes. */
  predicate StrLess(a: string, b: string) {
    if |a| == 0 then |b| > 0
    else if |b| == 0 then false
    else if a[0] != b[0] then a[0] < b[0]
    else StrLess(a[1..], b[1..])
  }

  /** compare: same-typed operands compare by their own order; a string
      against anything else is true only for != and <, a number against
      anything else only for != and >. */
  function Compare(val1: Value, val2: Option<Value>, op: Op): bool {
    match val1
    case Str(v) =>
      if !(val2.Some? && val2.value.Str?) then
        // a string against a number or a missing operand
        op == Diff || op == Less
      else
        var w := val2.value.s;
        (match op
         case Equal => v == w
         case Diff => v != w
         case Great => StrLess(w, v)
         case GreatEqual => StrLess(w, v) || v == w
         case Less => StrLess(v, w)
         case LessEqual => StrLess(v, w) || v == w)
    case Num(x) =>
      if !(val2.Some? && val2.value.Num?) then
        // a number against a string or a missing operand
        op == Diff || op == Great
      else
        var w := val2.value.x;
        match op
        case Equal => x == w
        case Diff => x != w
        case Great => x > w
        case GreatEqual => x >= w
        case Less => x < w
        case LessEqual => x <= w
  }

  /** The cells an expression reads exist and are not empty. */
  predicate Fits(e: Expression, row: seq<string>) {
    && 0 <= e.left < |row| && |row[e.left]| > 0
    && (e.right == -1 || (0 <= e.right < |row| && |row[e.right]| > 0))
  }

  predicate FitsAll(exps: seq<Expression>, row: seq<string>) {
    forall i :: 0 <= i < |exps| ==> Fits(exps[i], row)
  }

  /** One expression on one row: the right column, when there is one,
      replaces the literal. */
  predicate Holds(e: Expression, row: seq<string>)
    requires Fits(e, row)
  {
    var val2 := if e.right != -1 then Some(GetFieldValue(row[e.right])) else e.value;
    Compare(GetFieldValue(row[e.left]), val2, e.op)
  }

  /** The rows rowsFn can evaluate without reading an empty cell: the
      expressions are tried in order and the first one that holds ends the
      evaluation, so only the cells of the expressions up to that one are
      read. */
  predicate Evaluable(exps: seq<Expression>, row: seq<string>)
    decreases |exps|
  {
    |exps| == 0 || (Fits(exps[0], row) && (Holds(exps[0], row) || Evaluable(exps[1..], row)))
  }

  /** The expressions are taken as a short-circuit or condition. */
  predicate Selected(exps: seq<Expression>, row: seq<string>)
    requires Evaluable(exps, row)
    decreases |exps|
  {
    |exps| > 0 && (Holds(exps[0], row) || Selected(exps[1..], row))
  }

  /** rowsFn, once its row is read: the row when it is selected (or, with
      `invert`, when it is not), otherwise the empty row. */
  method RowsFn(row: seq<string>, exps: seq<Expression>, invert: bool) returns (out: seq<string>)
    requires Evaluable(exps, row)
    ensures out == if Selected(exps, row) != invert then row else []
  {
    var sel := false;
    var i := 0;
    while i < |exps|
      invariant 0 <= i <= |exps|
      invariant !sel
      invariant Evaluable(exps[i..], row)
      invariant Selected(exps, row) == Selected(exps[i..], row)
    {
      assert exps[i..][0] == exps[i] && exps[i..][1..] == exps[i + 1..];
      var e := exps[i];
      var val1 := GetFieldValue(row[e.left]);
      var val2 := e.value;
      if e.right != -1 {
        val2 := Some(GetFieldValue(row[e.right]));
      }
      if Compare(val1, val2, e.op) {
        assert Selected(exps, row);
        sel := true;
        break;
      }
      i := i + 1;
    }
    assert !sel ==> exps[i..] == [];
    if (invert && !sel) || (sel && !invert) {
      return row;
    }
    return [];
  }

  /** The rows the `rows` command writes, in order: those for which rowsFn
      returns a non-empty row. */
  function Passing(exps: seq<Expression>, rows: seq<seq<string>>, invert: bool): (out: seq<seq<string>>)
    requires forall row :: row in rows ==> Evaluable(exps, row)
    ensures |out| <= |rows|
  {
    if |rows| == 0 then []
    else (if Selected(exps, rows[0]) != invert then [rows[0]] else []) + Passing(exps, rows[1..], invert)
  }

  /** Selection depends on a row's cells only, so a row is written exactly
      when it is in the input and passes. */
  lemma {:induction false} PassingKeeps(exps: seq<Expression>, rows: seq<seq<string>>, invert: bool)
    requires forall row :: row in rows ==> Evaluable(exps, row)
    ensures forall row :: row in Passing(exps, rows, invert) <==> row in rows && Selected(exps, row) != invert
  {
    if |rows| > 0 {
      PassingKeeps(exps, rows[1..], invert);
      assert rows == [rows[0]] + rows[1..];
    }
  }
}
