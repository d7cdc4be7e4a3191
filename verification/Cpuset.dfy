/** Compact cpuset strings: what format_cpuset prints, and what a reader of cpusets makes of it. */
module Cpuset {
  import opened Options
  import opened Text

  type Range = r: (nat, nat) | r.0 <= r.1 witness (0, 0)

  predicate Increasing(ids: seq<nat>) {
    forall i, j :: 0 <= i < j < |ids| ==> ids[i] < ids[j]
  }

  /** The numbers of a range, and of many. */
  function Numbers(lo: nat, hi: nat): (ids: seq<nat>)
    requires lo <= hi
    ensures |ids| == hi - lo + 1
    ensures forall k :: 0 <= k < |ids| ==> ids[k] == lo + k
    decreases hi - lo
  {
    if lo == hi then [lo] else [lo] + Numbers(lo + 1, hi)
  }

  function Members(ranges: seq<Range>): seq<nat> {
    if ranges == [] then [] else Members(ranges[..|ranges| - 1]) + Numbers(ranges[|ranges| - 1].0, ranges[|ranges| - 1].1)
  }

  /** No two neighbouring ranges could be one. */
  predicate Maximal(ranges: seq<Range>) {
    forall k :: 0 <= k < |ranges| - 1 ==> ranges[k].1 + 1 < ranges[k + 1].0
  }

  function PieceOf(r: Range): string {
    if r.0 != r.1 then Decimal(r.0) + "-" + Decimal(r.1) else Decimal(r.0)
  }

  function PiecesOf(ranges: seq<Range>): (pieces: seq<string>)
    ensures |pieces| == |ranges| && forall k :: 0 <= k < |ranges| ==> pieces[k] == PieceOf(ranges[k])
  {
    seq(|ranges|, k requires 0 <= k < |ranges| => PieceOf(ranges[k]))
  }

  function Print(ranges: seq<Range>): string {
    Join(PiecesOf(ranges), ',')
  }

  // ---------------------------------------------------------------- reading

  function ReadPiece(piece: string): Option<Range> {
    var ends := Split(piece, '-');
    if |ends| == 1 then
      match Number(ends[0])
      case Some(n) => Some((n, n))
      case None => None
    else if |ends| == 2 then
      match (Number(ends[0]), Number(ends[1]))
      case (Some(a), Some(b)) => if a <= b then Some((a, b)) else None
      case _ => None
    else None
  }

  function ReadPieces(pieces: seq<string>): Option<seq<Range>> {
    if pieces == [] then Some([])
    else
      match (ReadPiece(pieces[0]), ReadPieces(pieces[1..]))
      case (Some(first), Some(rest)) => Some([first] + rest)
      case _ => None
  }

  /** The CPUs a cpuset string lists; the empty string lists none. */
  function Read(s: string): Option<seq<nat>> {
    if s == "" then Some([])
    else
      match ReadPieces(Split(s, ','))
      case Some(ranges) => Some(Members(ranges))
      case None => None
  }

  lemma NoSigns(s: string)
    requires s != "" && forall k :: 0 <= k < |s| ==> IsDigit(s[k])
    ensures '-' !in s && ',' !in s && '=' !in s
  {
  }

  lemma ReadOnePiece(r: Range)
    ensures ReadPiece(PieceOf(r)) == Some(r)
    ensures ',' !in PieceOf(r) && '=' !in PieceOf(r) && PieceOf(r) != ""
    ensures IsDigit(PieceOf(r)[0]) && IsDigit(PieceOf(r)[|PieceOf(r)| - 1])
  {
    hide Decimal, Number, Split;
    var a, b := Decimal(r.0), Decimal(r.1);
    NumberOfDecimal(r.0);
    NumberOfDecimal(r.1);
    NoSigns(a);
    NoSigns(b);
    SplitOne(a, '-');
    SplitOne(b, '-');
    SplitFirst(a, b, '-');
    assert a + ['-'] + b == a + "-" + b;
    assert [a] + [b] == [a, b];
  }

  lemma {:induction false} ReadAllPieces(ranges: seq<Range>)
    ensures ReadPieces(PiecesOf(ranges)) == Some(ranges)
  {
    hide PieceOf, ReadPiece;
    if ranges != [] {
      ReadOnePiece(ranges[0]);
      ReadAllPieces(ranges[1..]);
      assert PiecesOf(ranges)[1..] == PiecesOf(ranges[1..]);
      assert [ranges[0]] + ranges[1..] == ranges;
    }
  }

  /** What is printed reads back. */
  lemma ReadOfPrint(ranges: seq<Range>)
    ensures Read(Print(ranges)) == Some(Members(ranges))
  {
    hide PieceOf, ReadPiece, Split, ReadPieces;
    if ranges != [] {
      forall k | 0 <= k < |ranges|
        ensures ',' !in PiecesOf(ranges)[k]
      {
        ReadOnePiece(ranges[k]);
      }
      ReadOnePiece(ranges[0]);
      SplitOfJoin(PiecesOf(ranges), ',');
      ReadAllPieces(ranges);
      assert Print(ranges) != "";
    }
  }

  // ---------------------------------------------------------------- format_cpuset

  /** Ids become ranges from the left: one more id extends the last range or opens a new one. */
  function RangesOf(ids: seq<nat>): (ranges: seq<Range>)
    ensures ids == [] <==> ranges == []
    ensures ids != [] ==> ranges[|ranges| - 1].1 == ids[|ids| - 1]
  {
    if ids == [] then []
    else
      var before, id := RangesOf(ids[..|ids| - 1]), ids[|ids| - 1];
      if before != [] && before[|before| - 1].1 + 1 == id
      then before[..|before| - 1] + [(before[|before| - 1].0, id)]
      else before + [(id, id)]
  }

  function Format(ids: seq<nat>): string {
    Print(RangesOf(ids))
  }

  method FormatCpuset(ids: seq<nat>) returns (s: string)
    ensures s == Format(ids)
  {
    if ids == [] {
      return "";
    }
    var found: seq<Range> := [];
    var start, prev := ids[0], ids[0];
    for i := 1 to |ids|
      invariant start <= prev == ids[i - 1]
      invariant RangesOf(ids[..i]) == found + [(start, prev)]
    {
      assert ids[..i + 1][..i] == ids[..i];
      var cur := ids[i];
      if cur == prev + 1 {
        prev := cur;
      } else {
        found := found + [(start, prev)];
        start, prev := cur, cur;
      }
    }
    found := found + [(start, prev)];
    assert ids[..|ids|] == ids;
    s := Print(found);
  }

  lemma LongerLast(before: seq<Range>, r: Range)
    ensures Members(before + [(r.0, r.1 + 1)]) == Members(before + [r]) + [r.1 + 1]
    ensures Maximal(before + [r]) ==> Maximal(before + [(r.0, r.1 + 1)])
  {
    hide Members, Numbers, Maximal;
    MembersMore(before, r);
    MembersMore(before, (r.0, r.1 + 1));
    NumbersMore(r.0, r.1);
    SameStarts(before, r, (r.0, r.1 + 1));
  }

  lemma SameStarts(before: seq<Range>, r: Range, s: Range)
    requires s.0 >= r.0
    ensures Maximal(before + [r]) ==> Maximal(before + [s])
  {
    forall k | 0 <= k < |before| && Maximal(before + [r])
      ensures (before + [s])[k].1 + 1 < (before + [s])[k + 1].0
    {
      assert (before + [r])[k].1 + 1 < (before + [r])[k + 1].0;
    }
  }

  lemma NewLast(before: seq<Range>, id: nat)
    ensures Members(before + [(id, id)]) == Members(before) + [id]
    ensures Maximal(before) && (before != [] ==> before[|before| - 1].1 + 1 < id) ==> Maximal(before + [(id, id)])
  {
    hide Members, Numbers;
    MembersMore(before, (id, id));
    assert Numbers(id, id) == [id];
  }

  /** The ranges of any ids list just those ids; no two could be joined if the ids increase. */
  lemma {:induction false} RangesAreMaximal(ids: seq<nat>)
    ensures Members(RangesOf(ids)) == ids
    ensures Increasing(ids) ==> Maximal(RangesOf(ids))
    decreases |ids|
  {
    hide Members, Numbers, Maximal;
    if ids == [] {
      NoMembers();
    } else {
      var init, id := ids[..|ids| - 1], ids[|ids| - 1];
      RangesAreMaximal(init);
      var before := RangesOf(init);
      assert init + [id] == ids;
      if before != [] && before[|before| - 1].1 + 1 == id {
        var r := before[|before| - 1];
        assert before[..|before| - 1] + [r] == before;
        LongerLast(before[..|before| - 1], r);
      } else {
        NewLast(before, id);
      }
    }
  }

  lemma NoMembers()
    ensures Members([]) == [] && Maximal([])
  {
  }

  /** A printed cpuset lists exactly the ids it was printed from, in the same order. */
  lemma FormatReadsBack(ids: seq<nat>)
    ensures Read(Format(ids)) == Some(ids)
  {
    RangesAreMaximal(ids);
    ReadOfPrint(RangesOf(ids));
  }

  lemma MembersMore(ranges: seq<Range>, r: Range)
    ensures Members(ranges + [r]) == Members(ranges) + Numbers(r.0, r.1)
  {
    assert (ranges + [r])[..|ranges|] == ranges;
  }

  lemma {:induction false} NumbersMore(lo: nat, hi: nat)
    requires lo <= hi
    ensures Numbers(lo, hi + 1) == Numbers(lo, hi) + [hi + 1]
    decreases hi - lo
  {
    if lo < hi {
      NumbersMore(lo + 1, hi);
    }
  }

  /** Numbers that end with a range, and the number before it leaves a gap. */
  predicate LastIs(all: seq<nat>, r: Range) {
    var size := r.1 - r.0 + 1;
    && |all| >= size && all[|all| - size..] == Numbers(r.0, r.1)
    && (|all| > size ==> all[|all| - size - 1] + 1 < r.0)
  }

  function Before(all: seq<nat>, r: Range): seq<nat>
    requires LastIs(all, r)
  {
    all[..|all| - (r.1 - r.0 + 1)]
  }

  /** What precedes the last range stays below it, with a gap. */
  lemma LastRange(ranges: seq<Range>)
    requires Maximal(ranges) && ranges != []
    ensures LastIs(Members(ranges), ranges[|ranges| - 1])
    ensures Before(Members(ranges), ranges[|ranges| - 1]) == Members(ranges[..|ranges| - 1])
  {
    if |ranges| > 1 {
      var before := ranges[|ranges| - 2];
      assert ranges[..|ranges| - 1][|ranges| - 2] == before;
      assert Members(ranges[..|ranges| - 1])
             == Members(ranges[..|ranges| - 1][..|ranges| - 2]) + Numbers(before.0, before.1);
    }
  }

  lemma SomeMembers(ranges: seq<Range>)
    requires Maximal(ranges)
    ensures Members(ranges) == [] <==> ranges == []
    ensures ranges != [] ==> Maximal(ranges[..|ranges| - 1])
  {
  }

  /** There is only one way to cut ids into maximal ranges, so equal sets of CPUs are printed as equal texts. */
  lemma {:induction false} RangesAreUnique(xs: seq<Range>, ys: seq<Range>)
    requires Maximal(xs) && Maximal(ys) && Members(xs) == Members(ys)
    ensures xs == ys
    decreases |xs|
  {
    hide Members, Maximal, LastIs, Before;
    SomeMembers(xs);
    SomeMembers(ys);
    if xs != [] {
      LastRange(xs);
      LastRange(ys);
      SameLastRange(xs, ys);
      RangesAreUnique(xs[..|xs| - 1], ys[..|ys| - 1]);
      assert xs == xs[..|xs| - 1] + [xs[|xs| - 1]] && ys == ys[..|ys| - 1] + [ys[|ys| - 1]];
    }
  }

  /** Counting back from the end within the last range. */
  lemma FromTheEnd(all: seq<nat>, x: Range, k: nat)
    requires LastIs(all, x)
    ensures |all| >= x.1 - x.0 + 1
    ensures k <= x.1 - x.0 ==> all[|all| - 1 - k] == x.1 - k
    ensures k == x.1 - x.0 + 1 && |all| > k ==> all[|all| - 1 - k] + 1 < x.0
  {
    var size := x.1 - x.0 + 1;
    if k < size {
      assert all[|all| - size..][size - 1 - k] == x.1 - k;
    }
  }

  /** Of two last ranges, neither starts later: its first number has a gap before it. */
  lemma StartsNoLater(all: seq<nat>, x: Range, y: Range)
    requires LastIs(all, x) && LastIs(all, y)
    ensures x.1 == y.1 && y.0 <= x.0
  {
    hide LastIs;
    FromTheEnd(all, x, 0);
    FromTheEnd(all, y, 0);
    FromTheEnd(all, y, y.1 - y.0 + 1);
    FromTheEnd(all, x, y.1 - y.0 + 1);
  }

  lemma SameLastRange(xs: seq<Range>, ys: seq<Range>)
    requires Maximal(xs) && Maximal(ys) && Members(xs) == Members(ys) && xs != [] && ys != []
    ensures xs[|xs| - 1] == ys[|ys| - 1]
  {
    hide *;
    LastRange(xs);
    LastRange(ys);
    StartsNoLater(Members(xs), xs[|xs| - 1], ys[|ys| - 1]);
    StartsNoLater(Members(xs), ys[|ys| - 1], xs[|xs| - 1]);
  }
}
