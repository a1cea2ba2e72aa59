/** The `cols` command: choosing, reordering, adding and deleting the
    columns of a table by header name.  The header and each row are passed
    in as values, where the source reads them from a CSV reader. */
module Cols {

  // ---------------------------------------------------------------------
  // Reference definitions
  // ---------------------------------------------------------------------

  /** The first position of `name` in the header, or -1 when it is not
      there. */
  function FirstIndex(header: seq<string>, name: string): (r: int)
    ensures -1 <= r < |header|
    ensures r == -1 <==> name !in header
    ensures r >= 0 ==> header[r] == name && name !in header[..r]
  {
    if |header| == 0 then -1
    else if header[0] == name then 0
    else
      var r := FirstIndex(header[1..], name);
      assert header == [header[0]] + header[1..];
      if r == -1 then -1
      else
        assert header[..r + 1] == [header[0]] + header[1..][..r];
        r + 1
  }

  /** The column order a list of requested names gives: each name's first
      position in the header, -1 for a new column. */
  function Lookup(header: seq<string>, args: seq<string>): seq<int> {
    seq(|args|, i requires 0 <= i < |args| => FirstIndex(header, args[i]))
  }

  /** Every column, in header order. */
  function AllColumns(n: nat): seq<int> {
    seq(n, i => i)
  }

  /** The positions below `n` whose header name is not requested, in
      order. */
  function Kept(header: seq<string>, args: seq<string>, n: nat): seq<int>
    requires n <= |header|
  {
    if n == 0 then []
    else Kept(header, args, n - 1) + (if header[n - 1] in args then [] else [n - 1])
  }

  predicate InRange(nr: seq<string>, head: seq<int>) {
    forall i :: 0 <= i < |head| ==> -1 <= head[i] < |nr|
  }

  /** The row written for `nr`: cell `head[i]`, or empty for a new column. */
  function Project(nr: seq<string>, head: seq<int>): seq<string>
    requires InRange(nr, head)
  {
    seq(|head|, i requires 0 <= i < |head| => if head[i] == -1 then "" else nr[head[i]])
  }

  // ---------------------------------------------------------------------
  // The operations
  // ---------------------------------------------------------------------

  /** selectColumns: the names of the new table and, for each, its position
      in the original (-1 for a new column); every column when no name is
      requested. */
  method SelectColumns(header: seq<string>, args: seq<string>) returns (cols: seq<string>, head: seq<int>)
    ensures |args| == 0 ==> cols == header && head == AllColumns(|header|)
    ensures |args| > 0 ==> cols == args && head == Lookup(header, args)
  {
    if |args| == 0 {
      head := [];
      for i := 0 to |header|
        invariant head == AllColumns(i)
      {
        head := head + [i];
      }
      cols := header;
      return;
    }

    var h := new int[|args|];
    cols := args;
    for i := 0 to |args|
      invariant forall k :: 0 <= k < i ==> h[k] == FirstIndex(header, args[k])
    {
      h[i] := -1;
      for j := 0 to |header|
        invariant h[i] == -1 && args[i] !in header[..j]
      {
        if args[i] == header[j] {
          h[i] := j;
          assert header[..j + 1] == header[..j] + [header[j]];
          break;
        }
        assert header[..j + 1] == header[..j] + [header[j]];
      }
      assert h[i] == FirstIndex(header, args[i]) by {
        if h[i] == -1 {
          assert header[..|header|] == header;
        }
      }
    }
    head := h[..];
  }

  /** deleteColumns: the positions not requested, in header order, with
      their names; nothing at all when no name is requested. */
  method DeleteColumns(header: seq<string>, args: seq<string>) returns (cols: seq<string>, head: seq<int>)
    ensures |args| == 0 ==> cols == [] && head == []
    ensures |args| > 0 ==> head == Kept(header, args, |header|)
    ensures |cols| == |head|
    ensures forall k :: 0 <= k < |head| ==> 0 <= head[k] < |header| && cols[k] == header[head[k]]
  {
    cols, head := [], [];
    if |args| == 0 {
      return;
    }

    for i := 0 to |header|
      invariant head == Kept(header, args, i)
      invariant |cols| == |head|
      invariant forall k :: 0 <= k < |head| ==> 0 <= head[k] < i && cols[k] == header[head[k]]
    {
      var toDel := false;
      for j := 0 to |args|
        invariant !toDel && header[i] !in args[..j]
      {
        if args[j] == header[i] {
          toDel := true;
          break;
        }
        assert args[..j + 1] == args[..j] + [args[j]];
      }
      if toDel {
        continue;
      }
      assert args[..|args|] == args;
      head := head + [i];
      cols := cols + [header[i]];
    }
  }

  /** colsFn: the output row for the input row `nr`. */
  method ColsFn(nr: seq<string>, head: seq<int>) returns (row: seq<string>)
    requires InRange(nr, head)
    ensures row == Project(nr, head)
  {
    var a := new string[|head|](_ => "");
    for i := 0 to |head|
      invariant forall k :: 0 <= k < |head| ==> a[k] == if k < i then Project(nr, head)[k] else ""
    {
      if head[i] == -1 {
        continue;
      }
      a[i] := nr[head[i]];
    }
    row := a[..];
  }

  // ---------------------------------------------------------------------
  // What the projection promises
  // ---------------------------------------------------------------------

  /** Each requested name maps to its first position in the header, and to
      -1 exactly when the header does not hold it. */
  lemma LookupFindsNames(header: seq<string>, args: seq<string>)
    ensures var head := Lookup(header, args);
            |head| == |args| && InRange(header, head) &&
            forall i :: 0 <= i < |args| ==>
              (head[i] == -1 <==> args[i] !in header) &&
              (head[i] >= 0 ==> header[head[i]] == args[i] && args[i] !in header[..head[i]])
  {
  }

  /** With no name requested, every row is copied unchanged. */
  lemma {:induction false} ProjectAllColumns(nr: seq<string>)
    ensures InRange(nr, AllColumns(|nr|))
    ensures Project(nr, AllColumns(|nr|)) == nr
  {
    var p := Project(nr, AllColumns(|nr|));
    forall i | 0 <= i < |nr|
      ensures p[i] == nr[i]
    {
    }
  }

  /** colsFn applied to a row equal to the header gives back each requested
      name the header holds, and an empty cell for a new name.  This is a
      fact about the positions only: the header line colsRun writes is the
      list of requested names itself (cols.go:109-113), so it names new
      columns too. */
  lemma SelectedHeaderRow(header: seq<string>, args: seq<string>)
    ensures InRange(header, Lookup(header, args))
    ensures var row := Project(header, Lookup(header, args));
            |row| == |args| &&
            forall i :: 0 <= i < |args| ==> row[i] == if args[i] in header then args[i] else ""
  {
  }

  /** Narrowing a selection: choosing `args2` from the output of choosing
      `args1` is choosing `args2` from the original, as long as every name
      of `args2` the original holds was also chosen the first time. */
  lemma NarrowSelection(header: seq<string>, nr: seq<string>, args1: seq<string>, args2: seq<string>)
    requires |nr| == |header|
    requires forall n :: n in args2 && n in header ==> n in args1
    ensures InRange(nr, Lookup(header, args1)) && InRange(nr, Lookup(header, args2))
    ensures InRange(Project(nr, Lookup(header, args1)), Lookup(args1, args2))
    ensures Project(Project(nr, Lookup(header, args1)), Lookup(args1, args2)) == Project(nr, Lookup(header, args2))
  {
    var h1 := Lookup(header, args1);
    var mid := Project(nr, h1);
    var h2 := Lookup(args1, args2);
    var lhs := Project(mid, h2);
    var rhs := Project(nr, Lookup(header, args2));
    forall i | 0 <= i < |args2|
      ensures lhs[i] == rhs[i]
    {
      var j := FirstIndex(args1, args2[i]);
      if j >= 0 {
        assert h2[i] == j;
        assert args1[j] == args2[i];
        assert h1[j] == FirstIndex(header, args2[i]);
      }
    }
  }

  /** The positions deleteColumns keeps are in bounds, strictly increasing,
      and are exactly those whose name is not requested. */
  lemma {:induction false} KeptIsFilter(header: seq<string>, args: seq<string>, n: nat)
    requires n <= |header|
    ensures var kept := Kept(header, args, n);
            && (forall k :: 0 <= k < |kept| ==> 0 <= kept[k] < n)
            && (forall k, l :: 0 <= k < l < |kept| ==> kept[k] < kept[l])
            && (forall i :: i in kept <==> 0 <= i < n && header[i] !in args)
  {
    if n > 0 {
      KeptIsFilter(header, args, n - 1);
    }
  }

  /** The names deleteColumns keeps are exactly the header names that were
      not requested. */
  lemma DeletedNames(header: seq<string>, args: seq<string>)
    ensures InRange(header, Kept(header, args, |header|))
    ensures forall n :: n in Project(header, Kept(header, args, |header|)) <==> n in header && n !in args
  {
    var kept := Kept(header, args, |header|);
    KeptIsFilter(header, args, |header|);
    var names := Project(header, kept);
    forall n | n in header && n !in args
      ensures n in names
    {
      var i :| 0 <= i < |header| && header[i] == n;
      var k :| 0 <= k < |kept| && kept[k] == i;
      assert names[k] == n;
    }
  }

  /** On a header without repeated names, looking the kept names up again
      gives back the kept positions, so every row projects the same way
      through both.  These are the positions of `cols --invert` and of
      `cols` with the remaining names only when at least one name is given
      and at least one column remains: with no names deleteColumns keeps
      nothing while selectColumns keeps everything, and selectColumns also
      keeps everything when every column was deleted. */
  lemma DeleteIsSelectOfRest(header: seq<string>, nr: seq<string>, args: seq<string>)
    requires |nr| == |header|
    requires forall i, j :: 0 <= i < j < |header| ==> header[i] != header[j]
    ensures var kept := Kept(header, args, |header|);
            && InRange(header, kept) && InRange(nr, kept)
            && InRange(nr, Lookup(header, Project(header, kept)))
            && Project(nr, Lookup(header, Project(header, kept))) == Project(nr, kept)
  {
    var kept := Kept(header, args, |header|);
    KeptIsFilter(header, args, |header|);
    var rest := Project(header, kept);
    var head := Lookup(header, rest);
    forall k | 0 <= k < |kept|
      ensures head[k] == kept[k]
    {
      var r := FirstIndex(header, rest[k]);
      assert header[kept[k]] == rest[k];
    }
  }
}
