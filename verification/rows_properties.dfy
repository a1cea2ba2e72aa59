/** What the expression language and the comparison policy of rows.go
    promise, stated over the reference definitions of module Rows. */
module RowsProperties {
  import opened Wrappers
  import opened Runes
  import opened Strconv
  import opened Rows

  // ---------------------------------------------------------------------
  // Tokens: the parser as a tokenizer followed by a resolver
  // ---------------------------------------------------------------------

  /** The right-hand side as typed: a quoted string (with or without its
      closing quote), a number, or a column name. */
  datatype RightToken = Quoted(chars: string, closed: bool) | Number(digits: string) | Column(name: string)

  predicate NameToken(t: string) {
    forall k :: 0 <= k < |t| ==> !NameStop(t[k])
  }

  predicate Spaces(t: string) {
    forall k :: 0 <= k < |t| ==> IsSpace(t[k])
  }

  predicate OpRun(t: string) {
    forall k :: 0 <= k < |t| ==> IsOpChar(t[k])
  }

  predicate NoSpaces(t: string) {
    forall k :: 0 <= k < |t| ==> !IsSpace(t[k])
  }

  /** A right-hand token that reads back as itself when followed by `tail`:
      a quoted string holds no quote and, unclosed, ends the text; a number
      or a column name holds no space and is followed by a space or the end;
      a column name does not start like an operator, a string or a number. */
  predicate WellFormedRight(rt: RightToken, tail: string) {
    match rt
    case Quoted(chars, closed) =>
      (forall k :: 0 <= k < |chars| ==> !IsQuote(chars[k])) && (closed || tail == [])
    case Number(digits) =>
      |digits| > 0 && IsNumStart(digits[0]) && NoSpaces(digits) && (tail == [] || IsSpace(tail[0]))
    case Column(name) =>
      && |name| > 0 && !IsNumStart(name[0]) && !IsOpChar(name[0]) && !IsQuote(name[0])
      && NoSpaces(name) && (tail == [] || IsSpace(tail[0]))
  }

  function RightText(rt: RightToken): string {
    match rt
    case Quoted(chars, closed) => ['"'] + chars + (if closed then ['"'] else [])
    case Number(digits) => digits
    case Column(name) => name
  }

  /** The literal and the right column name a right-hand token stands for. */
  function RightValue(rt: RightToken): Result<(Option<Value>, string), ParseError> {
    match rt
    case Quoted(chars, _) => Success((Some(Str(chars)), []))
    case Number(digits) =>
      (match ParseFloat(digits)
       case None => Failure(BadNumber(digits))
       case Some(x) => Success((Some(Num(x)), [])))
    case Column(name) => Success((None, name))
  }

  /** The resolver: the expression three tokens stand for. */
  function ParseTokens(header: seq<string>, name: string, opText: string, rt: RightToken): Result<Expression, ParseError> {
    match OperatorOf(opText)
    case None => Failure(UnknownOperand(opText))
    case Some(op) =>
      match RightValue(rt)
      case Failure(err) => Failure(err)
      case Success((value, col2)) => Resolve(header, name, op, value, col2)
  }

  /** The operator texts the parser accepts are exactly the six spellings. */
  lemma OperatorTexts(t: string)
    ensures OperatorOf(t).Some? <==> t in ["==", "!=", ">", ">=", "<", "<="]
    ensures OperatorOf(t).Some? ==> OpText(OperatorOf(t).value) == t
  {
  }

  /** `s` starts with a column name `s[..a]`, spaces `s[a..b]`, operator
      runes `s[b..c]` and spaces `s[c..d]`. */
  ghost predicate HeadShape(s: string, a: nat, b: nat, c: nat, d: nat) {
    && a <= b <= c <= d <= |s|
    && (forall k :: 0 <= k < a ==> !NameStop(s[k]))
    && (forall k :: a <= k < b ==> IsSpace(s[k]))
    && (forall k :: b <= k < c ==> IsOpChar(s[k]))
    && (forall k :: c <= k < d ==> IsSpace(s[k]))
  }

  lemma HeadShapeOf(s: string, name: string, sp1: string, opText: string, sp2: string) returns (a: nat, b: nat, c: nat, d: nat)
    requires NameToken(name) && Spaces(sp1) && OpRun(opText) && Spaces(sp2)
    requires |name + sp1 + opText + sp2| <= |s| && s[..|name + sp1 + opText + sp2|] == name + sp1 + opText + sp2
    ensures HeadShape(s, a, b, c, d) && d == |name + sp1 + opText + sp2|
    ensures a == |name| && b == a + |sp1| && c == b + |opText| && d == c + |sp2|
    ensures s[..a] == name && s[b..c] == opText
  {
    a := |name|;
    b := a + |sp1|;
    c := b + |opText|;
    d := c + |sp2|;
    var h := name + sp1 + opText + sp2;
    forall k | 0 <= k < d
      ensures s[k] == h[k]
    {
      assert s[..d][k] == s[k];
    }
    forall k | 0 <= k < a
      ensures !NameStop(s[k])
    {
      assert h[k] == name[k];
    }
    forall k | a <= k < b
      ensures IsSpace(s[k])
    {
      assert h[k] == sp1[k - a];
    }
    forall k | b <= k < c
      ensures IsOpChar(s[k])
    {
      assert h[k] == opText[k - b];
    }
    forall k | c <= k < d
      ensures IsSpace(s[k])
    {
      assert h[k] == sp2[k - c];
    }
    assert s[..a] == name by {
      forall k | 0 <= k < a
        ensures s[..a][k] == name[k]
      {
        assert h[k] == name[k];
      }
    }
    assert s[b..c] == opText by {
      forall k | 0 <= k < c - b
        ensures s[b..c][k] == opText[k]
      {
        assert h[b + k] == opText[k];
      }
    }
  }

  /** Where the column-name loop stops on a text of that shape. */
  lemma ScanNameShape(s: string, a: nat, b: nat, c: nat, d: nat)
    requires HeadShape(s, a, b, c, d) && a < d
    requires d < |s| ==> !NameStop(s[d])
    ensures var p := if b < c then b else d;
            ScanName(s) == if p == |s| then None else Some((s[..a], p))
  {
    FindIs(s, 0, NameStop, a);
    var p := if b < c then b else d;
    if IsSpace(s[a]) {
      FindIs(s, a + 1, NotSpace, p);
    }
  }

  /** Where the operator loop stops on a text of that shape. */
  lemma ScanOperatorShape(s: string, a: nat, b: nat, c: nat, d: nat)
    requires HeadShape(s, a, b, c, d) && a < d
    requires d < |s| ==> !NameStop(s[d])
    requires (if b < c then b else d) < |s|
    ensures var p := if b < c then b else d;
            ScanOperator(s, p) == if d == |s| then None else Some((s[b..c], d))
  {
    var p := if b < c then b else d;
    var o := if b < c then c else d;
    FindIs(s, p, NotOpChar, o);
    if b < c {
      if c < d {
        FindIs(s, c + 1, NotSpace, d);
      }
    } else {
      assert s[p..o] == [] == s[b..c];
    }
  }

  /** Parse is the resolver applied to what the three scans read. */
  lemma ParseSteps(header: seq<string>, s: string, name: string, p: nat, opText: string, q: nat, rt: RightToken)
    requires ScanName(s) == Some((name, p))
    requires p <= |s| && ScanOperator(s, p) == Some((opText, q))
    requires q < |s| && RightOperand(s, q) == RightValue(rt)
    ensures Parse(header, s) == ParseTokens(header, name, opText, rt)
  {
  }

  /** A quoted string at `d` reads back as its runes. */
  lemma ScanQuoted(s: string, d: nat, chars: string, closed: bool)
    requires d + 1 + |chars| <= |s| && s[d] == '"' && s[d + 1..d + 1 + |chars|] == chars
    requires forall k :: 0 <= k < |chars| ==> !IsQuote(chars[k])
    requires if closed then d + 1 + |chars| < |s| && s[d + 1 + |chars|] == '"' else d + 1 + |chars| == |s|
    ensures RightOperand(s, d) == Success((Some(Str(chars)), []))
  {
    var e := d + 1 + |chars|;
    forall k | d + 1 <= k < e
      ensures !IsQuote(s[k])
    {
      assert s[k] == chars[k - d - 1];
    }
    FindIs(s, d + 1, IsQuote, e);
  }

  /** A word without spaces at `d`, followed by a space or the end, ends
      where the right-operand scan stops. */
  lemma ScanWord(s: string, d: nat, w: string)
    requires |w| > 0 && d + |w| <= |s| && s[d..d + |w|] == w && NoSpaces(w)
    requires d + |w| < |s| ==> IsSpace(s[d + |w|])
    ensures s[d] == w[0] && Find(s, d + 1, IsSpace) == d + |w|
  {
    var e := d + |w|;
    forall k | d + 1 <= k < e
      ensures !IsSpace(s[k])
    {
      assert s[k] == w[k - d];
    }
    FindIs(s, d + 1, IsSpace, e);
    assert s[d] == s[d..e][0];
  }

  lemma ScanRightQuoted(pre: string, chars: string, closed: bool, tail: string)
    requires WellFormedRight(Quoted(chars, closed), tail)
    ensures |pre| < |pre + RightText(Quoted(chars, closed)) + tail|
    ensures RightOperand(pre + RightText(Quoted(chars, closed)) + tail, |pre|) == RightValue(Quoted(chars, closed))
  {
    var s := pre + RightText(Quoted(chars, closed)) + tail;
    var d := |pre|;
    assert s[d + 1..d + 1 + |chars|] == chars;
    ScanQuoted(s, d, chars, closed);
  }

  lemma ScanRightWord(pre: string, rt: RightToken, tail: string)
    requires !rt.Quoted? && WellFormedRight(rt, tail)
    ensures |pre| < |pre + RightText(rt) + tail|
    ensures RightOperand(pre + RightText(rt) + tail, |pre|) == RightValue(rt)
  {
    var s := pre + RightText(rt) + tail;
    var d := |pre|;
    var w := RightText(rt);
    assert s[d..d + |w|] == w;
    assert d + |w| < |s| ==> s[d + |w|] == tail[0];
    ScanWord(s, d, w);
  }

  /** A right-hand token is read back from the text, whatever follows it
      in `tail`. */
  lemma ScanRight(pre: string, rt: RightToken, tail: string)
    requires WellFormedRight(rt, tail)
    ensures |pre| < |pre + RightText(rt) + tail|
    ensures RightOperand(pre + RightText(rt) + tail, |pre|) == RightValue(rt)
  {
    if rt.Quoted? {
      ScanRightQuoted(pre, rt.chars, rt.closed, tail);
    } else {
      ScanRightWord(pre, rt, tail);
    }
  }

  /** Token boundaries: an expression written as a column name, optional
      spaces, a run of operator runes, optional spaces and a right-hand side
      (anything after it being ignored) parses to what its tokens mean.  An
      unterminated quoted string is accepted, and any operator text other
      than the six spellings, even the empty one, is an unknown operand. */
  lemma {:induction false} ParseOfTokens(header: seq<string>, name: string, sp1: string, opText: string, sp2: string, rt: RightToken, tail: string)
    requires NameToken(name) && Spaces(sp1) && OpRun(opText) && Spaces(sp2)
    requires |sp1| + |opText| + |sp2| > 0
    requires WellFormedRight(rt, tail)
    ensures Parse(header, name + sp1 + opText + sp2 + RightText(rt) + tail) == ParseTokens(header, name, opText, rt)
  {
    var h := name + sp1 + opText + sp2;
    var s := h + RightText(rt) + tail;
    RightAfterHead(s, h, rt, tail);
    var a, b, c, d := HeadShapeOf(s, name, sp1, opText, sp2);
    ParseAfterShape(header, s, a, b, c, d, name, opText, rt);
  }

  /** A right-hand token placed after a head starts with no name-ending
      rune, and the right-hand scan reads it. */
  lemma RightAfterHead(s: string, h: string, rt: RightToken, tail: string)
    requires WellFormedRight(rt, tail)
    requires s == h + RightText(rt) + tail
    ensures |h| < |s| && s[..|h|] == h && !NameStop(s[|h|])
    ensures RightOperand(s, |h|) == RightValue(rt)
  {
    assert s[..|h|] == h;
    ScanRight(h, rt, tail);
    assert s[|h|] == RightText(rt)[0];
  }

  /** The same, for any text that starts with a head of that shape and holds
      the right-hand token right after it. */
  lemma ParseAfterShape(header: seq<string>, s: string, a: nat, b: nat, c: nat, d: nat, name: string, opText: string, rt: RightToken)
    requires HeadShape(s, a, b, c, d) && a < d < |s| && !NameStop(s[d])
    requires s[..a] == name && s[b..c] == opText
    requires RightOperand(s, d) == RightValue(rt)
    ensures Parse(header, s) == ParseTokens(header, name, opText, rt)
  {
    var p := HeadScans(s, a, b, c, d);
    ParseSteps(header, s, name, p, opText, d, rt);
  }

  /** Both scans over a head of that shape followed by a right operand. */
  lemma HeadScans(s: string, a: nat, b: nat, c: nat, d: nat) returns (p: nat)
    requires HeadShape(s, a, b, c, d) && a < d < |s| && !NameStop(s[d])
    ensures p <= |s| && ScanName(s) == Some((s[..a], p)) && ScanOperator(s, p) == Some((s[b..c], d))
  {
    p := if b < c then b else d;
    ScanNameShape(s, a, b, c, d);
    ScanOperatorShape(s, a, b, c, d);
  }

  /** A text that ends before its right-hand side fails with io.EOF,
      including a bare column name and a name followed by spaces only. */
  lemma {:induction false} MissingRightOperand(header: seq<string>, name: string, sp1: string, opText: string, sp2: string)
    requires NameToken(name) && Spaces(sp1) && OpRun(opText) && Spaces(sp2)
    ensures Parse(header, name + sp1 + opText + sp2) == Failure(EndOfInput)
  {
    var s := name + sp1 + opText + sp2;
    assert s[..|s|] == s;
    var a, b, c, d := HeadShapeOf(s, name, sp1, opText, sp2);
    if a == |s| {
      FindIs(s, 0, NameStop, a);
    } else {
      ScanNameShape(s, a, b, c, |s|);
      if (if b < c then b else |s|) < |s| {
        ScanOperatorShape(s, a, b, c, |s|);
      }
    }
  }

  /** A literal right operand leaves the right column name empty, so a
      header holding an empty name gives the expression a right column, and
      that column's cell replaces the literal when a row is evaluated. */
  lemma EmptyNameShadowsLiteral(header: seq<string>, s: string, row: seq<string>)
    requires Parse(header, s).Success? && Parse(header, s).value.value.Some?
    requires "" in header
    ensures var e := Parse(header, s).value;
            0 <= e.right < |header| && header[e.right] == "" &&
            (Fits(e, row) ==> Holds(e, row) == Holds(e.(value := None), row))
  {
  }

  // ---------------------------------------------------------------------
  // The comparison policy
  // ---------------------------------------------------------------------

  lemma {:induction false} StrLessIrreflexive(a: string)
    ensures !StrLess(a, a)
  {
    if |a| > 0 {
      StrLessIrreflexive(a[1..]);
    }
  }

  lemma {:induction false} StrLessTransitive(a: string, b: string, c: string)
    requires StrLess(a, b) && StrLess(b, c)
    ensures StrLess(a, c)
  {
    if |a| > 0 && |b| > 0 && |c| > 0 && a[0] == b[0] && b[0] == c[0] {
      StrLessTransitive(a[1..], b[1..], c[1..]);
    }
  }

  /** Any two strings are ordered one way, or equal. */
  lemma {:induction false} StrLessTrichotomy(a: string, b: string)
    ensures StrLess(a, b) || a == b || StrLess(b, a)
    ensures !(StrLess(a, b) && StrLess(b, a))
  {
    if |a| > 0 && |b| > 0 && a[0] == b[0] {
      StrLessTrichotomy(a[1..], b[1..]);
      if a[1..] == b[1..] {
        assert a == [a[0]] + a[1..] && b == [b[0]] + b[1..];
      }
    }
  }

  /** Two strings or two numbers: exactly one of <, == and > holds, >= is
      > or ==, <= is < or ==, != is the negation of ==, and < read backwards
      is >; < is the order of the reals for numbers and Go's string order
      for strings. */
  lemma SameTypeCompare(v1: Value, v2: Value)
    requires v1.Str? == v2.Str?
    ensures var lt, eq, gt := Compare(v1, Some(v2), Less), Compare(v1, Some(v2), Equal), Compare(v1, Some(v2), Great);
            (lt || eq || gt) && !(lt && eq) && !(lt && gt) && !(eq && gt)
    ensures Compare(v1, Some(v2), GreatEqual) == (Compare(v1, Some(v2), Great) || Compare(v1, Some(v2), Equal))
    ensures Compare(v1, Some(v2), LessEqual) == (Compare(v1, Some(v2), Less) || Compare(v1, Some(v2), Equal))
    ensures Compare(v1, Some(v2), Diff) == !Compare(v1, Some(v2), Equal)
    ensures Compare(v1, Some(v2), Less) == Compare(v2, Some(v1), Great)
    ensures v1.Num? ==> (Compare(v1, Some(v2), Less) <==> v1.x < v2.x)
    ensures v1.Str? ==> (Compare(v1, Some(v2), Less) <==> StrLess(v1.s, v2.s))
  {
    if v1.Str? {
      StrLessTrichotomy(v1.s, v2.s);
      if v1.s == v2.s {
        StrLessIrreflexive(v1.s);
      }
    }
  }

  /** Two strings or two numbers: < is transitive. */
  lemma SameTypeLessTransitive(v1: Value, v2: Value, v3: Value)
    requires v1.Str? == v2.Str? == v3.Str?
    requires Compare(v1, Some(v2), Less) && Compare(v2, Some(v3), Less)
    ensures Compare(v1, Some(v3), Less)
  {
    if v1.Str? {
      StrLessTransitive(v1.s, v2.s, v3.s);
    }
  }

  /** A string against a number or a missing value is true only for != and
      <, a number against a string or a missing value only for != and >;
      so == is false, and <= (for a string) and >= (for a number) are false
      too. */
  lemma MixedTypeCompare(v1: Value, v2: Option<Value>, op: Op)
    requires !(v2.Some? && v2.value.Str? == v1.Str?)
    ensures Compare(v1, v2, op) <==> op == Diff || op == (if v1.Str? then Less else Great)
  {
  }

  /** An unresolved right column without a literal compares as a
      mismatched type: != holds, and < for a string cell, > for a number. */
  lemma UnresolvedRightColumn(e: Expression, row: seq<string>)
    requires Fits(e, row) && e.right == -1 && e.value.None?
    ensures Holds(e, row) <==> e.op == Diff || e.op == (if GetFieldValue(row[e.left]).Str? then Less else Great)
  {
    MixedTypeCompare(GetFieldValue(row[e.left]), None, e.op);
  }

  // ---------------------------------------------------------------------
  // Selection
  // ---------------------------------------------------------------------

  /** When every cell an expression names is present, the short-circuit
      evaluation never stops early for a missing cell, and the or condition
      is the plain one: some expression holds. */
  lemma {:induction false} FitsAllEvaluable(exps: seq<Expression>, row: seq<string>)
    requires FitsAll(exps, row)
    ensures Evaluable(exps, row)
    ensures Selected(exps, row) <==> exists i :: 0 <= i < |exps| && Holds(exps[i], row)
  {
    if |exps| > 0 {
      var rest := exps[1..];
      assert forall k :: 0 <= k < |rest| ==> rest[k] == exps[k + 1];
      FitsAllEvaluable(rest, row);
      if !Holds(exps[0], row) && Selected(rest, row) {
        var k :| 0 <= k < |rest| && Holds(rest[k], row);
        assert Holds(exps[k + 1], row);
      }
      if !Holds(exps[0], row) && !Selected(rest, row) {
        forall i | 0 <= i < |exps|
          ensures !Holds(exps[i], row)
        {
          if i > 0 {
            assert exps[i] == rest[i - 1];
          }
        }
      }
    }
  }

  /** On any row rowsFn can evaluate, a selected row is one for which some
      expression has its cells and holds; a row that is not selected had
      every expression evaluated, so all of their cells are present. */
  lemma {:induction false} SelectedIsSomeHolds(exps: seq<Expression>, row: seq<string>)
    requires Evaluable(exps, row)
    ensures Selected(exps, row) <==> exists i :: 0 <= i < |exps| && Fits(exps[i], row) && Holds(exps[i], row)
    ensures !Selected(exps, row) ==> FitsAll(exps, row)
  {
    if |exps| > 0 && !Holds(exps[0], row) {
      var rest := exps[1..];
      assert forall k :: 0 <= k < |rest| ==> rest[k] == exps[k + 1];
      SelectedIsSomeHolds(rest, row);
      if Selected(rest, row) {
        var k :| 0 <= k < |rest| && Fits(rest[k], row) && Holds(rest[k], row);
        assert Fits(exps[k + 1], row) && Holds(exps[k + 1], row);
      } else {
        forall i | 0 <= i < |exps|
          ensures Fits(exps[i], row) && !Holds(exps[i], row)
        {
          if i > 0 {
            assert exps[i] == rest[i - 1];
          }
        }
      }
    }
  }

  /** Expressions are or-ed with short-circuit: appending expressions to a
      list that already selects the row changes nothing, and otherwise the
      longer list can be evaluated exactly when the appended part can, and
      selects the rows either part selects. */
  lemma {:induction false} SelectedAppend(exps1: seq<Expression>, exps2: seq<Expression>, row: seq<string>)
    requires Evaluable(exps1, row)
    ensures Evaluable(exps1 + exps2, row) <==> Selected(exps1, row) || Evaluable(exps2, row)
    ensures Evaluable(exps1 + exps2, row) ==>
              (Selected(exps1 + exps2, row) <==> Selected(exps1, row) || Selected(exps2, row))
  {
    var all := exps1 + exps2;
    if |exps1| == 0 {
      assert all == exps2;
    } else {
      assert all[0] == exps1[0];
      assert all[1..] == exps1[1..] + exps2;
      if !Holds(exps1[0], row) {
        SelectedAppend(exps1[1..], exps2, row);
      }
    }
  }

  /** Inverting splits the input: every row is written in exactly one of
      the two modes. */
  lemma {:induction false} InvertPartitions(exps: seq<Expression>, rows: seq<seq<string>>)
    requires forall row :: row in rows ==> Evaluable(exps, row)
    ensures multiset(Passing(exps, rows, false)) + multiset(Passing(exps, rows, true)) == multiset(rows)
    ensures |Passing(exps, rows, false)| + |Passing(exps, rows, true)| == |rows|
  {
    if |rows| > 0 {
      InvertPartitions(exps, rows[1..]);
      assert rows == [rows[0]] + rows[1..];
    }
  }

  /** Piping one `rows` command into another keeps the rows both select;
      the second command only sees the rows the first one wrote, so only
      those need to be evaluable by it. */
  lemma PipeIsAnd(exps1: seq<Expression>, exps2: seq<Expression>, rows: seq<seq<string>>)
    requires forall row :: row in rows ==> Evaluable(exps1, row)
    requires forall row :: row in rows && Selected(exps1, row) ==> Evaluable(exps2, row)
    ensures var first := Passing(exps1, rows, false);
            (forall row :: row in first ==> Evaluable(exps2, row)) &&
            forall row :: row in Passing(exps2, first, false) <==> row in rows && Selected(exps1, row) && Selected(exps2, row)
  {
    PassingKeeps(exps1, rows, false);
    PassingKeeps(exps2, Passing(exps1, rows, false), false);
  }
}
