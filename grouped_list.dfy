/** The grouped, key-ordered record list behind the Input (expo) and Mix
    lists of a model: a fixed-capacity array of slots, each tagged with a
    group key, where the live slots form a prefix sorted by key. Groups are
    located by a linear scan, and lines are inserted and deleted by shifting
    the array in place. The payload of a slot is a type parameter: the
    engine only looks at the key and at the liveness field. */
module GroupedList {

  import opened Wrappers

  /** One slot of a list. `key` is the group key (`chn` of an input line,
      `destCh` of a mix line) and `source` is `srcRaw`, whose zero value
      marks the slot as unused. */
  datatype Slot<B> = Slot(key: nat, source: int, body: B)

  predicate Live<B>(x: Slot<B>)
  {
    x.source != 0
  }

  /** `x` is a live line of group `k`. */
  predicate InGroup<B>(x: Slot<B>, k: nat)
  {
    Live(x) && x.key == k
  }

  /** The slot at which the scan for group `k` stops: dead, or keyed `k` or higher. */
  predicate EndsScan<B>(x: Slot<B>, k: nat)
  {
    !Live(x) || x.key >= k
  }

  /** The layout the scans rely on: no live slot follows a dead one, and
      the keys of the live slots never decrease. */
  ghost predicate WellFormed<B>(s: seq<Slot<B>>)
  {
    forall i, j | 0 <= i < j < |s| && Live(s[j]) :: Live(s[i]) && s[i].key <= s[j].key
  }

  // ---------------------------------------------------------------------
  // Scans

  /** The scan for group `k` from position `i`, stopping before `bound`. */
  function FirstFrom<B>(s: seq<Slot<B>>, k: nat, bound: nat, i: nat): (r: nat)
    requires bound <= |s| && i <= bound
    decreases bound - i
    ensures || (i <= r < bound && EndsScan(s[r], k) && forall j :: i <= j < r ==> !EndsScan(s[j], k))
            || (r == 0 && forall j :: i <= j < bound ==> !EndsScan(s[j], k))
  {
    if i == bound then 0
    else if EndsScan(s[i], k) then i
    else FirstFrom(s, k, bound, i + 1)
  }

  /** getFirstInput / getFirstMix: the least position below `bound` whose
      slot is dead or keyed `k` or higher; 0 when there is none. */
  function First<B>(s: seq<Slot<B>>, k: nat, bound: nat): (r: nat)
    requires bound <= |s|
    ensures || (r < bound && EndsScan(s[r], k) && forall j :: 0 <= j < r ==> !EndsScan(s[j], k))
            || (r == 0 && forall j :: 0 <= j < bound ==> !EndsScan(s[j], k))
  {
    FirstFrom(s, k, bound, 0)
  }

  /** getInputsCountFromFirst / getMixesCountFromFirst: the length of the
      run of live slots keyed `k` that starts at `i`, stopping at `bound`. */
  function RunLength<B>(s: seq<Slot<B>>, k: nat, i: nat, bound: nat): (n: nat)
    requires bound <= |s|
    decreases bound - i
    ensures n == 0 || i + n <= bound
    ensures forall j :: i <= j < i + n ==> InGroup(s[j], k)
    ensures i + n < bound ==> !InGroup(s[i + n], k)
  {
    if i >= bound || !InGroup(s[i], k) then 0 else 1 + RunLength(s, k, i + 1, bound)
  }

  /** getInputsCount / getMixesCount. */
  function Count<B>(s: seq<Slot<B>>, k: nat, bound: nat): (n: nat)
    requires bound <= |s|
    ensures n == 0 || First(s, k, bound) + n <= bound
    ensures forall j :: First(s, k, bound) <= j < First(s, k, bound) + n ==> InGroup(s[j], k)
  {
    RunLength(s, k, First(s, k, bound), bound)
  }

  /** The number of live slots in the whole list (the total the insert
      entry points compare with the capacity). */
  function LiveCount<B>(s: seq<Slot<B>>): (c: nat)
    ensures c <= |s|
    ensures c == |s| <==> forall j :: 0 <= j < |s| ==> Live(s[j])
  {
    if s == [] then 0
    else
      assert forall j :: 1 <= j < |s| ==> s[1..][j - 1] == s[j];
      (if Live(s[0]) then 1 else 0) + LiveCount(s[1..])
  }

  /** The reference view of group `k`: its live lines, in array order. */
  function Group<B>(s: seq<Slot<B>>, k: nat): (g: seq<Slot<B>>)
    ensures |g| <= |s|
    ensures forall j :: 0 <= j < |g| ==> InGroup(g[j], k)
  {
    if s == [] then []
    else (if InGroup(s[0], k) then [s[0]] else []) + Group(s[1..], k)
  }

  // ---------------------------------------------------------------------
  // Operations on the list value

  /** getInput / getMix: line `line` of group `k`, if it exists. */
  function Get<B>(s: seq<Slot<B>>, k: nat, line: nat, bound: nat): (r: Option<Slot<B>>)
    requires bound <= |s|
    ensures r.Some? <==> line < Count(s, k, bound)
    ensures r.Some? ==> InGroup(r.value, k) && r.value == s[First(s, k, bound) + line]
  {
    var first := First(s, k, bound);
    if line < RunLength(s, k, first, bound) then Some(s[first + line]) else None
  }

  /** The shift of insertExpoMix: every slot from `idx` on moves one place
      toward the tail, the last slot falls off, and `x` fills position `idx`. */
  function Spliced<B>(s: seq<Slot<B>>, idx: nat, x: Slot<B>): (r: seq<Slot<B>>)
    requires idx < |s|
    ensures |r| == |s| && r[idx] == x
  {
    s[..idx] + [x] + s[idx..|s| - 1]
  }

  /** Slot by slot: the prefix before `idx` stays, the rest moves one place on. */
  lemma SplicedAt<B>(s: seq<Slot<B>>, idx: nat, x: Slot<B>)
    requires idx < |s|
    ensures forall j :: 0 <= j < idx ==> Spliced(s, idx, x)[j] == s[j]
    ensures forall j :: idx < j < |s| ==> Spliced(s, idx, x)[j] == s[j - 1]
  {
  }

  /** The shift of deleteExpoMix: every slot after `idx` moves one place
      toward the head, and the freed last slot is cleared to `blank`. */
  function Removed<B>(s: seq<Slot<B>>, idx: nat, blank: Slot<B>): (r: seq<Slot<B>>)
    requires idx < |s|
    ensures |r| == |s| && r[|s| - 1] == blank
  {
    s[..idx] + s[idx + 1..] + [blank]
  }

  /** Slot by slot: the prefix before `idx` stays, the rest moves one place back. */
  lemma RemovedAt<B>(s: seq<Slot<B>>, idx: nat, blank: Slot<B>)
    requires idx < |s|
    ensures forall j :: 0 <= j < idx ==> Removed(s, idx, blank)[j] == s[j]
    ensures forall j :: idx <= j < |s| - 1 ==> Removed(s, idx, blank)[j] == s[j + 1]
  {
  }

  /** insertInput / insertMix: the new list, or None when the insert is
      refused (key at or above `keyLimit`, list full, or `line` beyond the
      end of the group). The new line is keyed `k`. */
  function InsertLine<B>(s: seq<Slot<B>>, bound: nat, keyLimit: nat, k: nat, line: nat, source: int, body: B)
    : (r: Option<seq<Slot<B>>>)
    requires bound <= |s|
    ensures r.Some? <==> k < keyLimit && LiveCount(s) < |s| && line <= Count(s, k, bound)
    ensures r.Some? ==> First(s, k, bound) + line < |s|
    ensures r.Some? ==> r.value == Spliced(s, First(s, k, bound) + line, Slot(k, source, body))
  {
    var first := First(s, k, bound);
    if k < keyLimit && LiveCount(s) < |s| && line <= RunLength(s, k, first, bound) then
      SpliceIndexInRange(s, k, bound, line);
      Some(Spliced(s, first + line, Slot(k, source, body)))
    else
      None
  }

  /** deleteInput / deleteMix: the new list, or None when `line` is not a
      line of group `k`. */
  function DeleteLine<B>(s: seq<Slot<B>>, bound: nat, k: nat, line: nat, blank: Slot<B>)
    : (r: Option<seq<Slot<B>>>)
    requires bound <= |s|
    ensures r.Some? <==> line < Count(s, k, bound)
    ensures r.Some? ==> First(s, k, bound) + line < |s|
    ensures r.Some? ==> r.value == Removed(s, First(s, k, bound) + line, blank)
  {
    var first := First(s, k, bound);
    if line < RunLength(s, k, first, bound) then Some(Removed(s, first + line, blank)) else None
  }

  /** deleteMixes: every slot cleared. */
  function Cleared<B>(s: seq<Slot<B>>, blank: Slot<B>): (r: seq<Slot<B>>)
    ensures |r| == |s| && forall j :: 0 <= j < |r| ==> r[j] == blank
  {
    seq(|s|, _ => blank)
  }

  // ---------------------------------------------------------------------
  // Lemmas

  /** The insert position lies inside the array whenever the list is not full. */
  lemma SpliceIndexInRange<B>(s: seq<Slot<B>>, k: nat, bound: nat, line: nat)
    requires bound <= |s| && LiveCount(s) < |s|
    requires line <= RunLength(s, k, First(s, k, bound), bound)
    ensures First(s, k, bound) + line < |s|
  {
    var f := First(s, k, bound);
    var n := RunLength(s, k, f, bound);
    var d :| 0 <= d < |s| && !Live(s[d]);
    if bound == |s| {
      assert EndsScan(s[d], k);
      assert f <= d;
      assert !(f <= d < f + n);
    }
  }

  /** The lines of group `k` in front of the insert/delete position are the
      first `line` slots of the run. */
  lemma LinesBefore<B>(s: seq<Slot<B>>, k: nat, bound: nat, line: nat)
    requires bound <= |s| && line <= Count(s, k, bound)
    ensures First(s, k, bound) + line <= |s|
    ensures Group(s[..First(s, k, bound) + line], k) == s[First(s, k, bound)..First(s, k, bound) + line]
  {
    var f := First(s, k, bound);
    var idx := f + line;
    assert s[..idx] == s[..f] + s[f..idx];
    GroupAppend(s[..f], s[f..idx], k);
    GroupOfNone(s[..f], k);
    GroupOfRun(s[f..idx], k);
  }

  lemma {:induction false} GroupAppend<B>(a: seq<Slot<B>>, b: seq<Slot<B>>, k: nat)
    ensures Group(a + b, k) == Group(a, k) + Group(b, k)
  {
    if a == [] {
      assert a + b == b;
    } else {
      assert (a + b)[1..] == a[1..] + b;
      GroupAppend(a[1..], b, k);
    }
  }

  lemma GroupAppend3<B>(a: seq<Slot<B>>, b: seq<Slot<B>>, c: seq<Slot<B>>, k: nat)
    ensures Group(a + b + c, k) == Group(a, k) + Group(b, k) + Group(c, k)
  {
    GroupAppend(a + b, c, k);
    GroupAppend(a, b, k);
  }

  lemma {:induction false} GroupOfRun<B>(t: seq<Slot<B>>, k: nat)
    requires forall j :: 0 <= j < |t| ==> InGroup(t[j], k)
    ensures Group(t, k) == t
  {
    if t != [] {
      GroupOfRun(t[1..], k);
    }
  }

  lemma {:induction false} GroupOfNone<B>(t: seq<Slot<B>>, k: nat)
    requires forall j :: 0 <= j < |t| ==> !InGroup(t[j], k)
    ensures Group(t, k) == []
  {
    if t != [] {
      GroupOfNone(t[1..], k);
    }
  }

  lemma GroupOfOne<B>(x: Slot<B>, k: nat)
    ensures Group([x], k) == if InGroup(x, k) then [x] else []
  {
    assert [x][1..] == [];
  }

  /** In a well-formed list nothing after the run found by the scans belongs to group `k`. */
  lemma NoLinesAfterRun<B>(s: seq<Slot<B>>, k: nat)
    requires WellFormed(s)
    ensures var f := First(s, k, |s|);
            var n := Count(s, k, |s|);
            f + n <= |s| && forall j :: f + n <= j < |s| ==> !InGroup(s[j], k)
  {
    var f := First(s, k, |s|);
    var n := Count(s, k, |s|);
    if |s| > 0 && EndsScan(s[f], k) {
      forall j | f + n < j < |s| && Live(s[j]) ensures s[j].key > k {
        assert Live(s[f + n]) && s[f + n].key <= s[j].key;
        assert !InGroup(s[f + n], k);
        if n > 0 {
          assert s[f].key <= s[f + n].key;
        }
      }
    }
  }

  /** Count correctness: in a well-formed list the scans count exactly the
      live lines keyed `k`, and the group is the run the scans find. */
  lemma CountIsGroupSize<B>(s: seq<Slot<B>>, k: nat)
    requires WellFormed(s)
    ensures First(s, k, |s|) + Count(s, k, |s|) <= |s|
    ensures Group(s, k) == s[First(s, k, |s|)..First(s, k, |s|) + Count(s, k, |s|)]
    ensures Count(s, k, |s|) == |Group(s, k)|
  {
    var f := First(s, k, |s|);
    var n := Count(s, k, |s|);
    NoLinesAfterRun(s, k);
    forall j | 0 <= j < f ensures !InGroup(s[j], k) {
      assert !EndsScan(s[j], k);
    }
    RunIsGroup(s, k, f, n);
  }

  /** A run of group `k` with nothing of the group before or after it is the whole group. */
  lemma RunIsGroup<B>(s: seq<Slot<B>>, k: nat, f: nat, n: nat)
    requires f + n <= |s|
    requires forall j :: 0 <= j < f ==> !InGroup(s[j], k)
    requires forall j :: f <= j < f + n ==> InGroup(s[j], k)
    requires forall j :: f + n <= j < |s| ==> !InGroup(s[j], k)
    ensures Group(s, k) == s[f..f + n]
  {
    var front, run, back := s[..f], s[f..f + n], s[f + n..];
    assert s == front + run + back;
    forall j | 0 <= j < |front| ensures !InGroup(front[j], k) {
      assert front[j] == s[j];
    }
    forall j | 0 <= j < |run| ensures InGroup(run[j], k) {
      assert run[j] == s[f + j];
    }
    forall j | 0 <= j < |back| ensures !InGroup(back[j], k) {
      assert back[j] == s[f + n + j];
    }
    GroupOfRunBetween(front, run, back, k);
  }

  /** A run of group `k` between slots that are all outside it is the whole group. */
  lemma GroupOfRunBetween<B>(front: seq<Slot<B>>, run: seq<Slot<B>>, back: seq<Slot<B>>, k: nat)
    requires forall j :: 0 <= j < |front| ==> !InGroup(front[j], k)
    requires forall j :: 0 <= j < |run| ==> InGroup(run[j], k)
    requires forall j :: 0 <= j < |back| ==> !InGroup(back[j], k)
    ensures Group(front + run + back, k) == run
  {
    GroupAppend3(front, run, back, k);
    GroupOfNone(front, k);
    GroupOfRun(run, k);
    GroupOfNone(back, k);
    assert [] + run + [] == run;
  }

  /** getInput / getMix read line `line` of the group's reference view. */
  lemma GetIsGroupLine<B>(s: seq<Slot<B>>, k: nat, line: nat)
    requires WellFormed(s)
    ensures Get(s, k, line, |s|) == if line < |Group(s, k)| then Some(Group(s, k)[line]) else None
  {
    CountIsGroupSize(s, k);
  }

  /** If a well-formed list is not full, its last slot is dead. */
  lemma LastSlotDead<B>(s: seq<Slot<B>>)
    requires WellFormed(s) && LiveCount(s) < |s|
    ensures !Live(s[|s| - 1])
  {
    var d :| 0 <= d < |s| && !Live(s[d]);
  }

  /** Keys around the insert position: live and at most `k` in front of
      it, at least `k` from it on. */
  lemma KeysAroundSplice<B>(s: seq<Slot<B>>, k: nat, line: nat)
    requires WellFormed(s) && LiveCount(s) < |s| && line <= Count(s, k, |s|)
    ensures First(s, k, |s|) + line < |s|
    ensures forall j :: 0 <= j < First(s, k, |s|) + line ==> Live(s[j]) && s[j].key <= k
    ensures forall j :: First(s, k, |s|) + line <= j < |s| && Live(s[j]) ==> s[j].key >= k
  {
    SpliceIndexInRange(s, k, |s|, line);
    var f := First(s, k, |s|);
    assert EndsScan(s[f], k) by {
      var d :| 0 <= d < |s| && !Live(s[d]);
      assert EndsScan(s[d], k);
    }
    forall j | 0 <= j < f + line ensures Live(s[j]) && s[j].key <= k {
      if j >= f {
        assert InGroup(s[j], k);
      }
    }
    forall j | f + line <= j < |s| && Live(s[j]) ensures s[j].key >= k {
      if j > f {
        assert Live(s[f]) && s[f].key <= s[j].key;
      }
    }
  }

  /** Inserting a live line keyed `k` into a well-formed list keeps it well-formed. */
  lemma InsertPreservesLayout<B>(s: seq<Slot<B>>, keyLimit: nat, k: nat, line: nat, source: int, body: B)
    requires WellFormed(s) && source != 0
    requires InsertLine(s, |s|, keyLimit, k, line, source, body).Some?
    ensures WellFormed(InsertLine(s, |s|, keyLimit, k, line, source, body).value)
  {
    KeysAroundSplice(s, k, line);
    var idx := First(s, k, |s|) + line;
    var x := Slot(k, source, body);
    var t := Spliced(s, idx, x);
    SplicedAt(s, idx, x);
    forall i, j | 0 <= i < j < |t| && Live(t[j]) ensures Live(t[i]) && t[i].key <= t[j].key {
      if j < idx {
        assert t[i] == s[i] && t[j] == s[j];
      } else if j == idx {
        assert t[i] == s[i];
      } else if i < idx {
        assert t[i] == s[i] && t[j] == s[j - 1];
      } else if i == idx {
        assert t[j] == s[j - 1];
      } else {
        assert t[i] == s[i - 1] && t[j] == s[j - 1];
      }
    }
  }

  /** Insert, seen through the groups: the new line becomes line `line` of
      group `k`, the lines after it keep their order one place later, and
      every other group is untouched. */
  lemma InsertGroups<B>(s: seq<Slot<B>>, bound: nat, keyLimit: nat, k: nat, line: nat, source: int, body: B)
    requires bound <= |s| && WellFormed(s) && source != 0
    requires InsertLine(s, bound, keyLimit, k, line, source, body).Some?
    ensures var t := InsertLine(s, bound, keyLimit, k, line, source, body).value;
            var g := Group(s, k);
            && line <= |g|
            && Group(t, k) == g[..line] + [Slot(k, source, body)] + g[line..]
            && forall k' :: k' != k ==> Group(t, k') == Group(s, k')
  {
    LastSlotDead(s);
    SpliceGroups(s, bound, k, line, Slot(k, source, body));
  }

  /** The group view of a splice at the insert position, when the slot
      that falls off the end is dead. */
  lemma SpliceGroups<B>(s: seq<Slot<B>>, bound: nat, k: nat, line: nat, x: Slot<B>)
    requires bound <= |s| && line <= Count(s, k, bound) && First(s, k, bound) + line < |s|
    requires InGroup(x, k) && !Live(s[|s| - 1])
    ensures var t := Spliced(s, First(s, k, bound) + line, x);
            var g := Group(s, k);
            && line <= |g|
            && Group(t, k) == g[..line] + [x] + g[line..]
            && forall k' :: k' != k ==> Group(t, k') == Group(s, k')
  {
    var idx := First(s, k, bound) + line;
    var t := Spliced(s, idx, x);
    LinesBefore(s, k, bound, line);
    var front, back := Group(s[..idx], k), Group(s[idx..|s| - 1], k);
    assert |front| == line;
    SplicedGroups(s, idx, x, k);
    GroupOfOne(s[|s| - 1], k);
    GroupOfOne(x, k);
    assert Group(s, k) == front + back;
    assert Group(t, k) == front + [x] + back;
    forall k': nat | k' != k
      ensures Group(t, k') == Group(s, k')
    {
      SplicedOtherGroup(s, idx, x, k');
    }
  }

  /** A splice whose new slot is not in group `k`, and whose dropped slot
      is dead, leaves group `k` as it was. */
  lemma SplicedOtherGroup<B>(s: seq<Slot<B>>, idx: nat, x: Slot<B>, k: nat)
    requires idx < |s| && !InGroup(x, k) && !Live(s[|s| - 1])
    ensures Group(Spliced(s, idx, x), k) == Group(s, k)
  {
    var last := |s| - 1;
    SplitAtLast(s, idx);
    GroupDropOutsiders(s[..idx], s[idx..last], x, s[last], k);
  }

  /** A list is its prefix, the slots up to the last one, and the last one. */
  lemma SplitAtLast<B>(s: seq<Slot<B>>, idx: nat)
    requires idx < |s|
    ensures s == s[..idx] + s[idx..|s| - 1] + [s[|s| - 1]]
  {
    assert s[idx..] == s[idx..|s| - 1] + [s[|s| - 1]];
  }

  /** Slots outside group `k` can be dropped from anywhere without
      changing the group. */
  lemma GroupDropOutsiders<B>(a: seq<Slot<B>>, b: seq<Slot<B>>, y: Slot<B>, z: Slot<B>, k: nat)
    requires !InGroup(y, k) && !InGroup(z, k)
    ensures Group(a + [y] + b, k) == Group(a + b + [z], k)
  {
    GroupAppend3(a, [y], b, k);
    GroupAppend3(a, b, [z], k);
    GroupOfOne(y, k);
    GroupOfOne(z, k);
    assert Group(a, k) + [] + Group(b, k) == Group(a, k) + Group(b, k) + [];
  }

  /** The groups of a spliced list, piece by piece. */
  lemma SplicedGroups<B>(s: seq<Slot<B>>, idx: nat, x: Slot<B>, k: nat)
    requires idx < |s|
    ensures Group(Spliced(s, idx, x), k) == Group(s[..idx], k) + Group([x], k) + Group(s[idx..|s| - 1], k)
    ensures Group(s, k) == Group(s[..idx], k) + Group(s[idx..|s| - 1], k) + Group([s[|s| - 1]], k)
  {
    var last := |s| - 1;
    assert s == s[..idx] + s[idx..last] + [s[last]];
    assert Spliced(s, idx, x) == s[..idx] + [x] + s[idx..last];
    GroupAppend3(s[..idx], [x], s[idx..last], k);
    GroupAppend3(s[..idx], s[idx..last], [s[last]], k);
  }

  /** Round trip: after an insert, get(k, line) reads the new line, and the
      group has one more line. */
  lemma InsertThenGet<B>(s: seq<Slot<B>>, keyLimit: nat, k: nat, line: nat, source: int, body: B)
    requires WellFormed(s) && source != 0
    requires InsertLine(s, |s|, keyLimit, k, line, source, body).Some?
    ensures var t := InsertLine(s, |s|, keyLimit, k, line, source, body).value;
            && Get(t, k, line, |t|) == Some(Slot(k, source, body))
            && Count(t, k, |t|) == Count(s, k, |s|) + 1
  {
    var t := InsertLine(s, |s|, keyLimit, k, line, source, body).value;
    InsertPreservesLayout(s, keyLimit, k, line, source, body);
    InsertGroups(s, |s|, keyLimit, k, line, source, body);
    GetIsGroupLine(t, k, line);
    CountIsGroupSize(s, k);
    CountIsGroupSize(t, k);
  }

  /** Deleting a line keeps a well-formed list well-formed, provided the
      freed slot is cleared to a dead value. */
  lemma DeletePreservesLayout<B>(s: seq<Slot<B>>, bound: nat, k: nat, line: nat, blank: Slot<B>)
    requires bound <= |s| && WellFormed(s) && !Live(blank)
    requires DeleteLine(s, bound, k, line, blank).Some?
    ensures WellFormed(DeleteLine(s, bound, k, line, blank).value)
  {
    var idx := First(s, k, bound) + line;
    var t := Removed(s, idx, blank);
    RemovedAt(s, idx, blank);
    forall i, j | 0 <= i < j < |t| && Live(t[j]) ensures Live(t[i]) && t[i].key <= t[j].key {
      var j' := if j < idx then j else j + 1;
      var i' := if i < idx then i else i + 1;
      assert t[i] == s[i'] && t[j] == s[j'];
    }
  }

  /** Delete, seen through the groups: exactly line `line` of group `k`
      disappears, the rest of the group keeps its order, and every other
      group is untouched. */
  lemma DeleteGroups<B>(s: seq<Slot<B>>, bound: nat, k: nat, line: nat, blank: Slot<B>)
    requires bound <= |s| && !Live(blank)
    requires DeleteLine(s, bound, k, line, blank).Some?
    ensures var t := DeleteLine(s, bound, k, line, blank).value;
            var g := Group(s, k);
            && line < |g|
            && Group(t, k) == g[..line] + g[line + 1..]
            && forall k' :: k' != k ==> Group(t, k') == Group(s, k')
  {
    var idx := First(s, k, bound) + line;
    LinesBefore(s, k, bound, line);
    forall k': nat
      ensures Group(Removed(s, idx, blank), k') == Group(s[..idx], k') + Group(s[idx + 1..], k')
      ensures Group(s, k') == Group(s[..idx], k') + Group([s[idx]], k') + Group(s[idx + 1..], k')
    {
      RemovedGroups(s, idx, blank, k');
      GroupOfOne(blank, k');
    }
    GroupOfOne(s[idx], k);
    var a, b := Group(s[..idx], k), Group(s[idx + 1..], k);
    assert InGroup(s[idx], k);
    assert |a| == line;
    assert Group(s, k) == a + [s[idx]] + b;
    assert Group(s, k)[..line] == a && Group(s, k)[line + 1..] == b;
  }

  /** The groups of a list with one slot removed, piece by piece. */
  lemma RemovedGroups<B>(s: seq<Slot<B>>, idx: nat, blank: Slot<B>, k: nat)
    requires idx < |s|
    ensures Group(Removed(s, idx, blank), k) == Group(s[..idx], k) + Group(s[idx + 1..], k) + Group([blank], k)
    ensures Group(s, k) == Group(s[..idx], k) + Group([s[idx]], k) + Group(s[idx + 1..], k)
  {
    assert s == s[..idx] + [s[idx]] + s[idx + 1..];
    GroupAppend3(s[..idx], s[idx + 1..], [blank], k);
    GroupAppend3(s[..idx], [s[idx]], s[idx + 1..], k);
  }

  /** After deleteMixes every slot is dead: the list is well-formed, every
      scan stops at position 0, and every group is empty. */
  lemma ClearedIsEmpty<B>(s: seq<Slot<B>>, blank: Slot<B>, k: nat)
    requires !Live(blank)
    ensures var t := Cleared(s, blank);
            && WellFormed(t)
            && First(t, k, |t|) == 0
            && Count(t, k, |t|) == 0
            && Group(t, k) == []
  {
    var t := Cleared(s, blank);
    GroupOfNone(t, k);
  }

  /** The fallback of the scan (no slot ends it) is harmless when the scan
      covers the whole array: the list is full, the group is empty, and an
      insert is refused. */
  lemma FallbackIsFull<B>(s: seq<Slot<B>>, k: nat)
    requires forall j :: 0 <= j < |s| ==> !EndsScan(s[j], k)
    ensures First(s, k, |s|) == 0 && Count(s, k, |s|) == 0
    ensures LiveCount(s) == |s|
  {
  }

  /** A run of group `k` cannot cross a slot outside the group, so a bound
      sitting just past such a slot cuts nothing off. */
  lemma {:induction false} RunLengthCut<B>(s: seq<Slot<B>>, k: nat, i: nat, b: nat)
    requires 0 < b <= |s| && i < b && !InGroup(s[b - 1], k)
    decreases b - i
    ensures RunLength(s, k, i, b) == RunLength(s, k, i, |s|)
  {
    if InGroup(s[i], k) {
      RunLengthCut(s, k, i + 1, b);
    }
  }

  /** A scan bound below the end of the list changes nothing when the slot
      just before it is dead: the scan stops at that slot at the latest, and
      so does the run it counts. */
  lemma ScanBoundIrrelevant<B>(s: seq<Slot<B>>, k: nat, b: nat)
    requires 0 < b <= |s| && !Live(s[b - 1])
    ensures First(s, k, b) == First(s, k, |s|)
    ensures Count(s, k, b) == Count(s, k, |s|)
  {
    var f := First(s, k, b);
    assert EndsScan(s[b - 1], k);
    assert f < b && EndsScan(s[f], k);
    RunLengthCut(s, k, f, b);
  }

  /** A list that opens with exactly `n` lines of group `k`: every scan for
      `k` stops at position 0 and counts those lines, up to the bound. */
  lemma CountOfLeadingRun<B>(s: seq<Slot<B>>, k: nat, n: nat, b: nat)
    requires 0 < n < |s| && 0 < b <= |s|
    requires forall j :: 0 <= j < n ==> InGroup(s[j], k)
    requires !InGroup(s[n], k)
    ensures First(s, k, b) == 0
    ensures Count(s, k, b) == if n < b then n else b
  {
    assert EndsScan(s[0], k);
    var c := RunLength(s, k, 0, b);
    assert c < b ==> !InGroup(s[c], k);
    assert c <= n by {
      assert forall j :: 0 <= j < c ==> InGroup(s[j], k);
    }
  }

  /** get, as a consequence: the bound cuts nothing off. */
  lemma GetBoundIrrelevant<B>(s: seq<Slot<B>>, k: nat, line: nat, b: nat)
    requires 0 < b <= |s| && !Live(s[b - 1])
    ensures Get(s, k, line, b) == Get(s, k, line, |s|)
  {
    ScanBoundIrrelevant(s, k, b);
  }

  /** delete, as a consequence: the bound cuts nothing off. */
  lemma DeleteLineBoundIrrelevant<B>(s: seq<Slot<B>>, b: nat, k: nat, line: nat, blank: Slot<B>)
    requires 0 < b <= |s| && !Live(s[b - 1])
    ensures DeleteLine(s, b, k, line, blank) == DeleteLine(s, |s|, k, line, blank)
  {
    ScanBoundIrrelevant(s, k, b);
  }

  /** insert, as a consequence: the bound cuts nothing off. */
  lemma InsertLineBoundIrrelevant<B>(s: seq<Slot<B>>, b: nat, keyLimit: nat, k: nat, line: nat, source: int, body: B)
    requires 0 < b <= |s| && !Live(s[b - 1])
    ensures InsertLine(s, b, keyLimit, k, line, source, body) == InsertLine(s, |s|, keyLimit, k, line, source, body)
  {
    ScanBoundIrrelevant(s, k, b);
  }

  // ---------------------------------------------------------------------
  // The same operations on the array, in place

  /** The scan loop of getFirstInput / getFirstMix, with its early exit. */
  method FirstIndex<B>(a: array<Slot<B>>, k: nat, bound: nat) returns (first: nat)
    requires bound <= a.Length
    ensures first == First(a[..], k, bound)
  {
    var i := 0;
    while i < bound
      invariant i <= bound
      invariant FirstFrom(a[..], k, bound, i) == First(a[..], k, bound)
    {
      if EndsScan(a[i], k) {
        return i;
      }
      i := i + 1;
    }
    return 0;
  }

  /** The counting loop of getInputsCountFromFirst / getMixesCountFromFirst. */
  method RunLengthAt<B>(a: array<Slot<B>>, k: nat, first: nat, bound: nat) returns (count: nat)
    requires bound <= a.Length
    ensures count == RunLength(a[..], k, first, bound)
  {
    count := 0;
    var i := first;
    while i < bound
      invariant i == first + count
      invariant count + RunLength(a[..], k, i, bound) == RunLength(a[..], k, first, bound)
    {
      if !InGroup(a[i], k) {
        break;
      }
      count := count + 1;
      i := i + 1;
    }
  }

  /** The element shift of insertExpoMix: opens position `idx` and writes `x` there. */
  method ShiftIn<B>(a: array<Slot<B>>, idx: nat, x: Slot<B>)
    requires idx < a.Length
    modifies a
    ensures a[..] == Spliced(old(a[..]), idx, x)
  {
    var j := a.Length - 1;
    while j > idx
      invariant idx <= j < a.Length
      invariant forall m :: 0 <= m <= j ==> a[m] == old(a[m])
      invariant forall m :: j < m < a.Length ==> a[m] == old(a[m - 1])
    {
      a[j] := a[j - 1];
      j := j - 1;
    }
    a[idx] := x;
    SplicedAt(old(a[..]), idx, x);
  }

  /** The insert of insertInput / insertMix on the array: scan for the
      group, check the guards, open the slot. `ok` tells whether the insert
      was accepted; a refused insert changes nothing. */
  method InsertInPlace<B>(a: array<Slot<B>>, keyLimit: nat, k: nat, line: nat, source: int, body: B)
    returns (ok: bool)
    modifies a
    ensures var r := InsertLine(old(a[..]), a.Length, keyLimit, k, line, source, body);
            ok == r.Some? && a[..] == r.GetOr(old(a[..]))
    ensures old(WellFormed(a[..])) && source != 0 ==> WellFormed(a[..])
  {
    ghost var before := a[..];
    var first := FirstIndex(a, k, a.Length);
    var count := RunLengthAt(a, k, first, a.Length);
    ghost var r := InsertLine(before, a.Length, keyLimit, k, line, source, body);
    ok := k < keyLimit && LiveCount(a[..]) < a.Length && line <= count;
    assert ok == r.Some?;
    if ok {
      ShiftIn(a, first + line, Slot(k, source, body));
      assert a[..] == r.value;
      if WellFormed(before) && source != 0 {
        InsertPreservesLayout(before, keyLimit, k, line, source, body);
      }
    }
  }

  /** The element shift of deleteExpoMix: closes position `idx` and clears the last slot. */
  method ShiftOut<B>(a: array<Slot<B>>, idx: nat, blank: Slot<B>)
    requires idx < a.Length
    modifies a
    ensures a[..] == Removed(old(a[..]), idx, blank)
  {
    var j := idx;
    while j < a.Length - 1
      invariant idx <= j <= a.Length - 1
      invariant forall m :: 0 <= m < idx ==> a[m] == old(a[m])
      invariant forall m :: idx <= m < j ==> a[m] == old(a[m + 1])
      invariant forall m :: j <= m < a.Length ==> a[m] == old(a[m])
    {
      a[j] := a[j + 1];
      j := j + 1;
    }
    a[a.Length - 1] := blank;
    RemovedAt(old(a[..]), idx, blank);
  }

  /** The memset of deleteMixes: every slot cleared to `blank`. */
  method Fill<B>(a: array<Slot<B>>, blank: Slot<B>)
    modifies a
    ensures a[..] == Cleared(old(a[..]), blank)
  {
    for j := 0 to a.Length
      invariant forall m :: 0 <= m < j ==> a[m] == blank
    {
      a[j] := blank;
    }
  }
}
