/**
 `string.split` of the Lua tools (lua/tools/string.lua).
*/
module StringSplit {
  import opened Common

  // ----- plain-text search

  ghost predicate OccursAt(s: string, p: string, i: nat) {
    i + |p| <= |s| && s[i..i + |p|] == p
  }

  ghost predicate Occurs(s: string, p: string) {
    exists i: nat :: OccursAt(s, p, i)
  }

  lemma OccursShift(s: string, p: string, j: nat)
    requires s != []
    ensures OccursAt(s[1..], p, j) <==> OccursAt(s, p, j + 1)
  {
    if j + 1 + |p| <= |s| {
      var x, y := s[1..][j..j + |p|], s[j + 1..j + 1 + |p|];
      assert forall k :: 0 <= k < |p| ==> x[k] == s[j + 1 + k] == y[k];
      assert x == y;
    }
  }

  lemma OccursInTail(s: string, p: string)
    requires s != []
    ensures forall j: nat {:trigger OccursAt(s, p, j)} :: j > 0 && OccursAt(s, p, j) ==> OccursAt(s[1..], p, j - 1)
    ensures forall j: nat {:trigger OccursAt(s[1..], p, j)} :: OccursAt(s[1..], p, j) ==> OccursAt(s, p, j + 1)
  {
    forall j: nat {:trigger OccursAt(s, p, j)} | j > 0 && OccursAt(s, p, j)
      ensures OccursAt(s[1..], p, j - 1)
    {
      OccursShift(s, p, j - 1);
    }
    forall j: nat {:trigger OccursAt(s[1..], p, j)} | OccursAt(s[1..], p, j)
      ensures OccursAt(s, p, j + 1)
    {
      OccursShift(s, p, j);
    }
  }

  /** `string.find(s, p, 1, true)`, counting from 0. */
  function Find(s: string, p: string): (r: Option<nat>)
    ensures r.Some? ==> OccursAt(s, p, r.value) && forall j: nat :: j < r.value ==> !OccursAt(s, p, j)
    ensures r.None? ==> !Occurs(s, p)
  {
    if |s| < |p| then None
    else if s[..|p|] == p then Some(0)
    else
      OccursInTail(s, p);
      var r := Find(s[1..], p);
      if r.None? then None else Some(r.value + 1)
  }

  /** `string.sub(s, i)` for i >= 0: from the i-th byte, counting from 1; 0 counts as 1. */
  function Sub(s: string, i: nat): string {
    if i <= 1 then s else if i - 1 <= |s| then s[i - 1..] else []
  }

  // ----- splitting

  /** The loop shortens the string, or counts a limit down. */
  predicate Ends(p: string, max: int) {
    p != [] || max >= 0
  }

  function TurnsLeft(s: string, p: string, max: int): nat
    requires Ends(p, max)
  {
    if p != [] then |s| else max
  }

  /** The pieces that the loop puts in its table; `max` counts down and ends the loop
      at 0, so a negative `max` sets no limit. */
  function Split(s: string, p: string, max: int): (r: seq<string>)
    requires Ends(p, max)
    ensures max != 0 ==> r != []
    decreases TurnsLeft(s, p, max)
  {
    if max == 0 then []
    else
      var found := Find(s, p);
      if found.None? then [s]
      else
        var rest := s[found.value + |p|..];
        [s[..found.value]] + (if max == 1 then [Sub(rest, found.value)] else Split(rest, p, max - 1))
  }

  function Join(pieces: seq<string>, p: string): string
    requires pieces != []
  {
    if |pieces| == 1 then pieces[0] else pieces[0] + p + Join(pieces[1..], p)
  }

  /** The loop with the pieces collected so far. */
  function Loop(done: seq<string>, s: string, p: string, max: int): seq<string>
    requires Ends(p, max)
    decreases TurnsLeft(s, p, max)
  {
    if max == 0 then done
    else
      var found := Find(s, p);
      if found.None? then done + [s]
      else
        var rest := s[found.value + |p|..];
        var more := done + [s[..found.value]];
        if max == 1 then more + [Sub(rest, found.value)] else Loop(more, rest, p, max - 1)
  }

  lemma Regroup(done: seq<string>, head: string, rest: seq<string>)
    ensures (done + [head]) + rest == done + ([head] + rest)
  {
  }

  lemma {:induction false} LoopCollects(done: seq<string>, s: string, p: string, max: int)
    requires Ends(p, max)
    ensures Loop(done, s, p, max) == done + Split(s, p, max)
    decreases TurnsLeft(s, p, max)
  {
    if max == 0 || Find(s, p).None? {
    } else {
      var i := Find(s, p).value;
      var head, rest := s[..i], s[i + |p|..];
      var u := if max == 1 then [Sub(rest, i)] else Split(rest, p, max - 1);
      Regroup(done, head, u);
      assert Split(s, p, max) == [head] + u;
      if max != 1 {
        LoopCollects(done + [head], rest, p, max - 1);
      }
    }
  }

  /** The function of the source: the table's pieces and its `count` field. It ends
      unless the separator is empty and there is no limit. */
  method StringSplit(str: string, pattern: string, maxsplit: int) returns (pieces: seq<string>, count: nat)
    requires Ends(pattern, maxsplit)
    ensures pieces == Split(str, pattern, maxsplit) && count == |pieces|
  {
    var s, max := str, maxsplit;
    pieces, count := [], 0;
    while max != 0
      invariant Ends(pattern, max) && count == |pieces|
      invariant Loop(pieces, s, pattern, max) == Loop([], str, pattern, maxsplit)
      decreases TurnsLeft(s, pattern, max)
    {
      var found := Find(s, pattern);
      if found.Some? {
        var pos := found.value + |pattern|;
        pieces := pieces + [s[..found.value]];
        count := count + 1;
        s := s[pos..];
        if max == 1 {
          // the position still refers to the string before it was shortened
          pieces := pieces + [Sub(s, pos - |pattern|)];
          count := count + 1;
        }
      } else {
        pieces := pieces + [s];
        count := count + 1;
        break;
      }
      max := max - 1;
    }
    LoopCollects([], str, pattern, maxsplit);
  }

  /** The loop's variables after `n` turns, while it has not been left. */
  function AfterTurns(s: string, p: string, max: int, n: nat): Option<(string, int)> {
    if n == 0 then Some((s, max))
    else
      var before := AfterTurns(s, p, max, n - 1);
      if before.None? || before.value.1 == 0 then None
      else
        var found := Find(before.value.0, p);
        if found.None? then None else Some((before.value.0[found.value + |p|..], before.value.1 - 1))
  }

  /** With an empty separator and no limit the loop is never left. */
  lemma {:induction false} EmptySeparatorLoops(s: string, max: int, n: nat)
    requires max < 0
    ensures AfterTurns(s, [], max, n) == Some((s, max - n))
  {
    if n > 0 {
      EmptySeparatorLoops(s, max, n - 1);
      assert s[..0] == [];
    }
  }

  function Empties(n: nat): seq<string> {
    if n == 0 then [] else [""] + Empties(n - 1)
  }

  /** With an empty separator and a limit it gives as many empty pieces and the string. */
  lemma {:induction false} EmptySeparatorSplits(s: string, max: int)
    requires max > 0
    ensures Split(s, [], max) == Empties(max) + [s]
  {
    assert Find(s, []) == Some(0) by { assert s[..0] == []; }
    if max == 1 {
      assert Empties(1) == [""] + Empties(0);
    } else {
      EmptySeparatorSplits(s, max - 1);
      assert Empties(max) + [s] == [""] + (Empties(max - 1) + [s]);
    }
  }

  lemma JoinCons(piece: string, rest: seq<string>, p: string)
    requires rest != []
    ensures Join([piece] + rest, p) == piece + p + Join(rest, p)
  {
    assert ([piece] + rest)[1..] == rest;
  }

  lemma CutAt(s: string, p: string, i: nat)
    requires OccursAt(s, p, i)
    ensures s == s[..i] + p + s[i + |p|..]
  {
  }

  /** Joining the pieces of an unlimited split gives the string back. */
  lemma {:induction false} JoinSplit(s: string, p: string, max: int)
    requires p != [] && max < 0
    ensures Join(Split(s, p, max), p) == s
    decreases |s|
  {
    var found := Find(s, p);
    if found.Some? {
      var i := found.value;
      var rest := s[i + |p|..];
      JoinSplit(rest, p, max - 1);
      JoinCons(s[..i], Split(rest, p, max - 1), p);
      CutAt(s, p, i);
    }
  }

  lemma PrefixOccurs(s: string, p: string, i: nat, j: nat)
    requires i <= |s|
    ensures OccursAt(s[..i], p, j) <==> OccursAt(s, p, j) && j + |p| <= i
  {
    if j + |p| <= i {
      var x, y := s[..i][j..j + |p|], s[j..j + |p|];
      assert forall k :: 0 <= k < |p| ==> x[k] == s[j + k] == y[k];
      assert x == y;
    }
  }

  lemma PrefixFree(s: string, p: string, i: nat)
    requires OccursAt(s, p, i) && p != [] && forall j: nat :: j < i ==> !OccursAt(s, p, j)
    ensures !Occurs(s[..i], p)
  {
    forall j: nat
      ensures !OccursAt(s[..i], p, j)
    {
      PrefixOccurs(s, p, i, j);
    }
  }

  /** No piece of an unlimited split contains the separator. */
  lemma {:induction false} PiecesFree(s: string, p: string, max: int)
    requires p != [] && max < 0
    ensures forall k :: 0 <= k < |Split(s, p, max)| ==> !Occurs(Split(s, p, max)[k], p)
    decreases |s|
  {
    var found := Find(s, p);
    if found.Some? {
      var i := found.value;
      PrefixFree(s, p, i);
      PiecesFree(s[i + |p|..], p, max - 1);
    }
  }

  // ----- splitting what was joined

  /** The separator is first found right after the first piece exactly when it does
      not begin inside that piece. */
  lemma FoundAfterPiece(piece: string, p: string, rest: string)
    requires p != []
    ensures
      var r := Find(piece + p + rest, p);
      r.Some? && r.value <= |piece| && (r.value == |piece| <==> !Occurs(piece + p[..|p| - 1], p))
  {
    var s, t := piece + p + rest, piece + p[..|p| - 1];
    assert OccursAt(s, p, |piece|);
    var i := Find(s, p).value;
    var m := |piece| + |p| - 1;
    assert t == s[..m];
    PrefixOccurs(s, p, m, i);
    if Occurs(t, p) {
      var j: nat :| OccursAt(t, p, j);
      PrefixOccurs(s, p, m, j);
    }
  }

  /** Exactly the lists of pieces that an unlimited split of their join gives back. */
  ghost predicate Splittable(pieces: seq<string>, p: string)
    requires pieces != [] && p != []
  {
    && (forall k :: 0 <= k < |pieces| - 1 ==> !Occurs(pieces[k] + p[..|p| - 1], p))
    && !Occurs(pieces[|pieces| - 1], p)
  }

  lemma SplittableCons(head: string, tail: seq<string>, p: string)
    requires tail != [] && p != []
    ensures Splittable([head] + tail, p) <==> !Occurs(head + p[..|p| - 1], p) && Splittable(tail, p)
  {
    var pieces := [head] + tail;
    assert pieces[0] == head && pieces[|pieces| - 1] == tail[|tail| - 1];
    assert forall k :: 0 <= k < |tail| ==> pieces[k + 1] == tail[k];
    if Splittable(pieces, p) {
      forall k | 0 <= k < |tail| - 1
        ensures !Occurs(tail[k] + p[..|p| - 1], p)
      {
        assert pieces[k + 1] == tail[k];
      }
    }
  }

  lemma SameHead(x: string, u: seq<string>, y: string, v: seq<string>)
    ensures [x] + u == [y] + v <==> x == y && u == v
  {
    assert ([x] + u)[0] == x && ([x] + u)[1..] == u && ([y] + v)[0] == y && ([y] + v)[1..] == v;
  }

  lemma SplitCons(head: string, tail: seq<string>, p: string, max: int)
    requires tail != [] && p != [] && max < 0
    ensures Split(Join([head] + tail, p), p, max) == [head] + tail
      <==> !Occurs(head + p[..|p| - 1], p) && Split(Join(tail, p), p, max - 1) == tail
  {
    var rest := Join(tail, p);
    var s := head + p + rest;
    JoinCons(head, tail, p);
    FoundAfterPiece(head, p, rest);
    var i := Find(s, p).value;
    SameHead(s[..i], Split(s[i + |p|..], p, max - 1), head, tail);
    if i == |head| {
      assert s[..i] == head && s[i + |p|..] == rest;
    } else {
      assert |s[..i]| != |head|;
    }
  }

  lemma SplitOne(s: string, p: string, max: int)
    requires p != [] && max < 0
    ensures Split(s, p, max) == [s] <==> !Occurs(s, p)
  {
    var found := Find(s, p);
    if found.Some? {
      assert |Split(s, p, max)| >= 2;
    }
  }

  lemma {:induction false} SplitJoin(pieces: seq<string>, p: string, max: int)
    requires pieces != [] && p != [] && max < 0
    ensures Split(Join(pieces, p), p, max) == pieces <==> Splittable(pieces, p)
    decreases |pieces|
  {
    if |pieces| == 1 {
      assert pieces == [pieces[0]];
      SplitOne(pieces[0], p, max);
    } else {
      var head, tail := pieces[0], pieces[1..];
      assert pieces == [head] + tail;
      SplitJoin(tail, p, max - 1);
      SplitCons(head, tail, p, max);
      SplittableCons(head, tail, p);
    }
  }

  /** For a one-character separator these are the lists of separator-free pieces. */
  lemma SplitJoinOneChar(pieces: seq<string>, p: string)
    requires pieces != [] && |p| == 1
    ensures Split(Join(pieces, p), p, -1) == pieces <==> forall k :: 0 <= k < |pieces| ==> !Occurs(pieces[k], p)
  {
    SplitJoin(pieces, p, -1);
    assert forall k :: 0 <= k < |pieces| ==> pieces[k] + p[..0] == pieces[k];
  }

  // ----- limited splits

  /** A piece cut off in front leaves the comparison of the joins to the rest. */
  lemma CutOff(s: string, p: string, i: nat, pieces: seq<string>)
    requires p != [] && OccursAt(s, p, i) && pieces != []
    ensures Join([s[..i]] + pieces, p) == s <==> Join(pieces, p) == s[i + |p|..]
  {
    CutAt(s, p, i);
    JoinCons(s[..i], pieces, p);
    SameTail(s[..i] + p, Join(pieces, p), s[i + |p|..]);
  }

  lemma SplitIsEmpty(s: string, p: string, max: int)
    requires p != [] && max < 0
    ensures Split(s, p, max) == [[]] <==> s == []
  {
    JoinSplit(s, p, max);
    if s == [] { assert Find(s, p).None?; }
  }

  lemma SplitUnfold(s: string, p: string, max: int)
    requires p != [] && max != 0 && Find(s, p).Some?
    ensures
      var i := Find(s, p).value;
      var rest := s[i + |p|..];
      Split(s, p, max) == [s[..i]] + (if max == 1 then [Sub(rest, i)] else Split(rest, p, max - 1))
  {
  }

  /** The condition under which the pieces of a limited split join to the string. */
  ghost predicate LimitHarmless(u: seq<string>, max: int)
    requires max > 0
  {
    |u| <= max || |u[max - 1]| <= 1 || u[max..] == [[]]
  }

  lemma LimitHarmlessCons(head: string, u: seq<string>, max: int)
    requires max > 1
    ensures LimitHarmless([head] + u, max) <==> LimitHarmless(u, max - 1)
  {
    if |u| >= max {
      assert ([head] + u)[max..] == u[max - 1..];
    }
  }

  lemma LimitOfOne(s: string, p: string, i: nat, u: seq<string>)
    requires p != [] && OccursAt(s, p, i) && u != [] && (u == [[]] <==> s[i + |p|..] == [])
    ensures Join([s[..i]] + [Sub(s[i + |p|..], i)], p) == s <==> LimitHarmless([s[..i]] + u, 1)
  {
    CutOff(s, p, i, [Sub(s[i + |p|..], i)]);
    assert ([s[..i]] + u)[1..] == u;
  }

  /** With a limit, the last piece is cut at a stale position. The pieces still join
      to the string exactly when the limit is not reached, or the last cut-off piece
      has at most one character, or nothing follows it. */
  lemma {:induction false} LimitedSplit(s: string, p: string, max: int, unlimited: int)
    requires p != [] && max > 0 && unlimited < 0
    ensures Join(Split(s, p, max), p) == s <==> LimitHarmless(Split(s, p, unlimited), max)
    decreases |s|
  {
    var found := Find(s, p);
    if found.Some? {
      var i := found.value;
      var rest := s[i + |p|..];
      var u := Split(rest, p, unlimited - 1);
      SplitUnfold(s, p, max);
      SplitUnfold(s, p, unlimited);
      if max == 1 {
        SplitIsEmpty(rest, p, unlimited - 1);
        LimitOfOne(s, p, i, u);
      } else {
        LimitedSplit(rest, p, max - 1, unlimited - 1);
        CutOff(s, p, i, Split(rest, p, max - 1));
        LimitHarmlessCons(s[..i], u, max);
      }
    }
  }

  /** `v` is `u` up to the limit, and then, as one piece, all that follows, without as many
      characters as the piece before it has, less one. */
  ghost predicate IsLimited(v: seq<string>, u: seq<string>, max: int, p: string)
    requires max > 0
  {
    if |u| <= max then v == u
    else |v| == max + 1 && v[..max] == u[..max] && v[max] == Sub(Join(u[max..], p), |u[max - 1]|)
  }

  lemma IsLimitedMeans(v: seq<string>, u: seq<string>, max: int, p: string)
    requires max > 0 && |u| > max
    ensures IsLimited(v, u, max, p) <==>
      var rest, k := Join(u[max..], p), |u[max - 1]|;
      v == u[..max] + [if k <= 1 then rest else if k - 1 <= |rest| then rest[k - 1..] else ""]
  {
    if IsLimited(v, u, max, p) {
      assert v == v[..max] + [v[max]];
    }
  }

  lemma LimitedCons(head: string, v: seq<string>, u: seq<string>, max: int, p: string)
    requires max > 1 && IsLimited(v, u, max - 1, p)
    ensures IsLimited([head] + v, [head] + u, max, p)
  {
    if |u| >= max {
      assert ([head] + u)[max..] == u[max - 1..];
      assert ([head] + u)[..max] == [head] + u[..max - 1] && ([head] + v)[..max] == [head] + v[..max - 1];
      assert ([head] + v)[max] == v[max - 1] && ([head] + u)[max - 1] == u[max - 2];
    }
  }

  lemma LimitedFirst(head: string, u: seq<string>, p: string)
    requires u != []
    ensures IsLimited([head] + [Sub(Join(u, p), |head|)], [head] + u, 1, p)
  {
    assert ([head] + u)[1..] == u;
  }

  /** The last turn of a limited split against the first of an unlimited one. */
  lemma LimitedLast(s: string, p: string, unlimited: int)
    requires p != [] && unlimited < 0 && Find(s, p).Some?
    ensures IsLimited(Split(s, p, 1), Split(s, p, unlimited), 1, p)
  {
    var i := Find(s, p).value;
    var rest := s[i + |p|..];
    SplitUnfold(s, p, 1);
    SplitUnfold(s, p, unlimited);
    JoinSplit(rest, p, unlimited - 1);
    LimitedFirst(s[..i], Split(rest, p, unlimited - 1), p);
  }

  /** Any other turn. */
  lemma LimitedTurn(s: string, p: string, max: int, unlimited: int, head: string, rest: string)
    requires p != [] && max > 1 && unlimited < 0 && Find(s, p).Some?
    requires head == s[..Find(s, p).value] && rest == s[Find(s, p).value + |p|..]
    requires IsLimited(Split(rest, p, max - 1), Split(rest, p, unlimited - 1), max - 1, p)
    ensures IsLimited(Split(s, p, max), Split(s, p, unlimited), max, p)
  {
    var v, u := Split(rest, p, max - 1), Split(rest, p, unlimited - 1);
    LimitedCons(head, v, u, max, p);
    assert Split(s, p, max) == [head] + v by { SplitUnfold(s, p, max); }
    assert Split(s, p, unlimited) == [head] + u by { SplitUnfold(s, p, unlimited); }
  }

  /** Which pieces a limit gives. */
  lemma {:induction false} LimitedPieces(s: string, p: string, max: int, unlimited: int)
    requires p != [] && max > 0 && unlimited < 0
    ensures IsLimited(Split(s, p, max), Split(s, p, unlimited), max, p)
    decreases |s|
  {
    if Find(s, p).None? {
      LimitedNone(s, p, max, unlimited);
    } else if max == 1 {
      LimitedLast(s, p, unlimited);
    } else {
      var i := Find(s, p).value;
      LimitedPieces(s[i + |p|..], p, max - 1, unlimited - 1);
      LimitedTurn(s, p, max, unlimited, s[..i], s[i + |p|..]);
    }
  }

  lemma LimitedNone(s: string, p: string, max: int, unlimited: int)
    requires p != [] && max > 0 && unlimited < 0 && Find(s, p).None?
    ensures IsLimited(Split(s, p, max), Split(s, p, unlimited), max, p)
  {
    assert Split(s, p, max) == [s] && Split(s, p, unlimited) == [s];
  }

  lemma JoinSingle(piece: string, p: string)
    ensures Join([piece], p) == piece
  {
  }

  /** A limit of one: the last piece loses its first character. */
  lemma LimitDropsCharacter()
    ensures Split("ab.cd", ".", 1) == ["ab", "d"] && Join(["ab", "d"], ".") == "ab.d"
  {
    var s := "ab.cd";
    assert s[0..1][0] == 'a' && s[1..2][0] == 'b' && s[2..3] == ".";
    FoundAt(s, ".", 2);
    assert s[..2] == "ab" && s[3..] == "cd" && "cd"[1..] == "d";
    JoinCons("ab", ["d"], ".");
    assert Join(["d"], ".") == "d" && ["ab"] + ["d"] == ["ab", "d"];
  }

  lemma FoundAt(s: string, p: string, i: nat)
    requires OccursAt(s, p, i) && forall j: nat :: j < i ==> !OccursAt(s, p, j)
    ensures Find(s, p) == Some(i)
  {
  }

  lemma SameTail(x: string, y: string, z: string)
    ensures x + y == x + z <==> y == z
  {
    assert (x + y)[|x|..] == y && (x + z)[|x|..] == z;
  }
}
