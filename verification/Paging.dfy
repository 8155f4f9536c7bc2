/** Listing a namespace page by page, and choosing among the name records found (db/peer/message_dispatcher.cpp,
    db/storage/storage.cpp, cli/src/commands.cpp). */
module Paging {
  import opened Basics
  import opened Octets

  const MAX_LIST_LIMIT: nat := 100
  const CLIENT_PAGE_LIMIT: nat := 1000

  /** A live entry of the sequence index. `kept` says the request's filters let it through. */
  datatype Ref = Ref(seqNum: nat, hash: Bytes, kept: bool, timestamp: nat)

  /** A row of the index; a deleted blob leaves a sentinel. */
  datatype Row = Live(ref: Ref) | Sentinel(seqNum: nat)

  function RowSeq(r: Row): nat {
    if r.Live? then r.ref.seqNum else r.seqNum
  }

  /** The index of one namespace, as a cursor walks it: sequence numbers start at 1 and grow. */
  predicate RowsOrdered(rows: seq<Row>) {
    && (forall i, j :: 0 <= i < j < |rows| ==> RowSeq(rows[i]) < RowSeq(rows[j]))
    && forall i :: 0 <= i < |rows| ==> 0 < RowSeq(rows[i]) < TWO_64 - 1
  }

  function LiveRefs(rows: seq<Row>): seq<Ref> {
    if rows == [] then [] else (if rows[0].Live? then [rows[0].ref] else []) + LiveRefs(rows[1..])
  }

  predicate Ordered(refs: seq<Ref>) {
    && (forall i, j :: 0 <= i < j < |refs| ==> refs[i].seqNum < refs[j].seqNum)
    && forall i :: 0 <= i < |refs| ==> 0 < refs[i].seqNum < TWO_64 - 1
  }

  function Kept(refs: seq<Ref>): seq<Ref> {
    if refs == [] then [] else (if refs[0].kept then [refs[0]] else []) + Kept(refs[1..])
  }

  /** The index of the first entry past a cursor. */
  function Position(refs: seq<Ref>, since: nat): (p: nat)
    ensures p <= |refs|
  {
    if refs == [] || refs[0].seqNum > since then 0 else 1 + Position(refs[1..], since)
  }

  datatype Page = Page(entries: seq<Ref>, more: bool)

  function Window(refs: seq<Ref>, p: nat): seq<Ref>
    requires p <= |refs|
  {
    if |refs| - p <= MAX_LIST_LIMIT then refs[p..] else refs[p..p + MAX_LIST_LIMIT]
  }

  /** The page at position `p`: the next hundred entries, filtered; more says that there were further ones. */
  function PageAt(refs: seq<Ref>, p: nat): Page
    requires p <= |refs|
  {
    Page(Kept(Window(refs, p)), |refs| - p > MAX_LIST_LIMIT)
  }

  /** How many entries of a window the client's cursor moves past: up to its last kept one. */
  function Advance(window: seq<Ref>): (n: nat)
    ensures n <= |window|
    ensures n > 0 ==> window[n - 1].kept
    ensures forall i :: n <= i < |window| ==> !window[i].kept
    ensures n == 0 <==> Kept(window) == []
    ensures Kept(window) == Kept(window[..n])
  {
    if window == [] then 0
    else
      var rest := Advance(window[1..]);
      assert forall i :: 0 < i < |window| ==> window[i] == window[1..][i - 1];
      if rest > 0 then assert window[..rest + 1][1..] == window[1..][..rest]; rest + 1
      else if window[0].kept then assert window[..1][1..] == []; 1
      else 0
  }

  function NextPosition(refs: seq<Ref>, p: nat): (q: nat)
    requires p <= |refs|
    ensures q <= |refs|
  {
    p + Advance(Window(refs, p))
  }

  /** Everything the client lists from position `p` on. */
  function Listed(refs: seq<Ref>, p: nat): seq<Ref>
    requires p <= |refs|
    decreases |refs| - p
  {
    var page := PageAt(refs, p);
    if page.entries == [] || !page.more then page.entries
    else page.entries + Listed(refs, NextPosition(refs, p))
  }

  lemma {:induction false} KeptSplits(a: seq<Ref>, b: seq<Ref>)
    ensures Kept(a + b) == Kept(a) + Kept(b)
  {
    if a == [] {
      assert a + b == b;
    } else {
      assert (a + b)[1..] == a[1..] + b;
      KeptSplits(a[1..], b);
      Regroup(if a[0].kept then [a[0]] else [], Kept(a[1..]), Kept(b));
    }
  }

  lemma {:induction false} KeptMembers(refs: seq<Ref>, r: Ref)
    ensures r in Kept(refs) <==> r in refs && r.kept
  {
    if refs != [] {
      KeptMembers(refs[1..], r);
      assert refs == [refs[0]] + refs[1..];
    }
  }

  /** The kept entries from `p` on are those of the window's advance, then those after it. */
  lemma KeptFrom(refs: seq<Ref>, p: nat)
    requires p <= |refs|
    ensures Kept(refs[p..]) == Kept(Window(refs, p)) + Kept(refs[NextPosition(refs, p)..])
  {
    var w := Window(refs, p);
    var n := Advance(w);
    assert w == refs[p..p + |w|];
    SliceSplits(refs, p, |w|, n);
    KeptSplits(w[..n], refs[p + n..]);
  }

  lemma SliceSplits(refs: seq<Ref>, p: nat, m: nat, n: nat)
    requires n <= m && p + m <= |refs|
    ensures refs[p..p + m][..n] + refs[p + n..] == refs[p..]
  {
    assert refs[p..p + m][..n] == refs[p..p + n];
  }

  lemma PrefixAfter(a: seq<Ref>, b: seq<Ref>, c: seq<Ref>)
    requires b <= c
    ensures a + b <= a + c
  {
  }

  /** What is listed is a prefix of what there is to list: nothing twice, nothing out of order. */
  lemma {:induction false} ListedIsPrefix(refs: seq<Ref>, p: nat)
    requires p <= |refs|
    ensures Listed(refs, p) <= Kept(refs[p..])
    decreases |refs| - p
  {
    KeptFrom(refs, p);
    if Kept(Window(refs, p)) != [] && |refs| - p > MAX_LIST_LIMIT {
      var q := NextPosition(refs, p);
      ListedIsPrefix(refs, q);
      PrefixAfter(Kept(Window(refs, p)), Listed(refs, q), Kept(refs[q..]));
    }
  }

  /** A place the cursor can stand before: the start, or after a kept entry. */
  predicate Anchor(refs: seq<Ref>, i: int) {
    i == -1 || (0 <= i < |refs| && refs[i].kept)
  }

  /** Every kept entry comes within a hundred positions of the start or of another kept entry before it. */
  predicate GapsSmall(refs: seq<Ref>) {
    forall j {:trigger Reached(refs, j)} :: 0 <= j < |refs| && refs[j].kept ==> Reached(refs, j)
  }

  predicate Reached(refs: seq<Ref>, j: nat) {
    exists i :: j - MAX_LIST_LIMIT <= i < j && Anchor(refs, i)
  }

  lemma {:induction false} FirstKept(refs: seq<Ref>, p: nat) returns (j: nat)
    requires p <= |refs| && Kept(refs[p..]) != []
    ensures p <= j < |refs| && refs[j].kept && forall i :: p <= i < j ==> !refs[i].kept
    decreases |refs| - p
  {
    if refs[p].kept {
      j := p;
    } else {
      assert refs[p..][1..] == refs[p + 1..];
      j := FirstKept(refs, p + 1);
    }
  }

  /** With small gaps a page at an anchor is empty only if nothing is left. */
  lemma PageNotEmpty(refs: seq<Ref>, p: nat)
    requires p <= |refs| && Anchor(refs, p - 1) && GapsSmall(refs) && Kept(refs[p..]) != []
    ensures Kept(Window(refs, p)) != []
  {
    var j := FirstKept(refs, p);
    assert Reached(refs, j);
    var i :| j - MAX_LIST_LIMIT <= i < j && Anchor(refs, i);
    assert i < p;
    var w := Window(refs, p);
    assert w[j - p] == refs[j];
    KeptMembers(w, refs[j]);
  }

  lemma NextIsAnchor(refs: seq<Ref>, p: nat)
    requires p <= |refs| && Kept(Window(refs, p)) != []
    ensures p < NextPosition(refs, p) && Anchor(refs, NextPosition(refs, p) - 1)
  {
    var w := Window(refs, p);
    var n := Advance(w);
    assert refs[p + n - 1] == w[n - 1];
  }

  lemma LastPage(refs: seq<Ref>, p: nat)
    requires p <= |refs| <= p + MAX_LIST_LIMIT
    ensures Listed(refs, p) == Kept(refs[p..])
  {
  }

  lemma OneMorePage(refs: seq<Ref>, p: nat)
    requires p + MAX_LIST_LIMIT < |refs| && Kept(Window(refs, p)) != []
    requires p < NextPosition(refs, p) && Listed(refs, NextPosition(refs, p)) == Kept(refs[NextPosition(refs, p)..])
    ensures Listed(refs, p) == Kept(refs[p..])
  {
    KeptFrom(refs, p);
  }

  lemma {:induction false} SmallGapsListAll(refs: seq<Ref>, p: nat)
    requires p <= |refs| && Anchor(refs, p - 1) && GapsSmall(refs)
    ensures Listed(refs, p) == Kept(refs[p..])
    decreases |refs| - p
  {
    if Kept(refs[p..]) == [] {
      ListedIsPrefix(refs, p);
    } else if |refs| - p <= MAX_LIST_LIMIT {
      LastPage(refs, p);
    } else {
      PageNotEmpty(refs, p);
      NextIsAnchor(refs, p);
      SmallGapsListAll(refs, NextPosition(refs, p));
      OneMorePage(refs, p);
    }
  }

  /** An entry with no anchor in the hundred positions before it. */
  predicate BehindGap(refs: seq<Ref>, j: nat) {
    j < |refs| && refs[j].kept && !Reached(refs, j)
  }

  lemma WindowMisses(refs: seq<Ref>, p: nat, j: nat)
    requires Ordered(refs) && p <= j && BehindGap(refs, j) && Anchor(refs, p - 1)
    ensures p + MAX_LIST_LIMIT <= j && refs[j] !in Kept(Window(refs, p))
  {
    assert p - 1 < j - MAX_LIST_LIMIT;
    KeptMembers(Window(refs, p), refs[j]);
  }

  /** It is never listed. */
  lemma {:induction false} BehindGapMissed(refs: seq<Ref>, p: nat, j: nat)
    requires Ordered(refs) && p <= j && BehindGap(refs, j) && Anchor(refs, p - 1)
    ensures refs[j] !in Listed(refs, p)
    decreases |refs| - p
  {
    WindowMisses(refs, p, j);
    if Kept(Window(refs, p)) != [] {
      NextIsAnchor(refs, p);
      BehindGapMissed(refs, NextPosition(refs, p), j);
    }
  }

  /** The listing is complete exactly when the gaps are small. */
  lemma ListingCompleteIff(refs: seq<Ref>)
    requires Ordered(refs)
    ensures Listed(refs, 0) == Kept(refs) <==> GapsSmall(refs)
  {
    assert refs[0..] == refs;
    if GapsSmall(refs) {
      SmallGapsListAll(refs, 0);
    } else {
      var j :| 0 <= j < |refs| && refs[j].kept && !Reached(refs, j);
      BehindGapMissed(refs, 0, j);
      KeptMembers(refs, refs[j]);
    }
  }

  /** So a run of a hundred other entries hides everything behind it: one name record after a hundred files is not
      found. */
  lemma HiddenNameExists(refs: seq<Ref>)
    requires Ordered(refs) && |refs| == 101 && (forall i :: 0 <= i < 100 ==> !refs[i].kept) && refs[100].kept
    ensures Listed(refs, 0) == [] && Kept(refs) != []
  {
    var w := Window(refs, 0);
    assert forall i :: 0 <= i < |w| ==> w[i] == refs[i];
    assert Advance(w) == 0;
    KeptMembers(refs, refs[100]);
  }

  // The loops.

  lemma {:induction false} LiveFrom(rows: seq<Row>, r: Ref)
    requires r in LiveRefs(rows)
    ensures exists i :: 0 <= i < |rows| && rows[i] == Live(r)
  {
    if rows[0] != Live(r) {
      LiveFrom(rows[1..], r);
      var i :| 0 <= i < |rows[1..]| && rows[1..][i] == Live(r);
      assert rows[i + 1] == Live(r);
    }
  }

  lemma {:induction false} LiveOrdered(rows: seq<Row>)
    requires RowsOrdered(rows)
    ensures Ordered(LiveRefs(rows))
  {
    if rows != [] {
      var rest := rows[1..];
      assert forall i :: 0 <= i < |rest| ==> rest[i] == rows[i + 1];
      LiveOrdered(rest);
      var tail := LiveRefs(rest);
      forall j | 0 <= j < |tail|
        ensures RowSeq(rows[0]) < tail[j].seqNum
      {
        LiveFrom(rest, tail[j]);
      }
      if rows[0].Live? {
        ConsOrdered(rows[0].ref, tail);
      } else {
        assert LiveRefs(rows) == tail;
      }
    }
  }

  lemma ConsOrdered(r: Ref, tail: seq<Ref>)
    requires Ordered(tail) && 0 < r.seqNum < TWO_64 - 1 && forall j :: 0 <= j < |tail| ==> r.seqNum < tail[j].seqNum
    ensures Ordered([r] + tail)
  {
  }

  /** Skipping the rows up to a cursor skips as many entries as the position says. */
  lemma {:induction false} SeekFinds(rows: seq<Row>, k: nat, since: nat)
    requires k <= |rows| && forall i :: 0 <= i < k ==> RowSeq(rows[i]) <= since
    requires forall i :: k <= i < |rows| ==> RowSeq(rows[i]) > since
    ensures LiveRefs(rows)[Position(LiveRefs(rows), since)..] == LiveRefs(rows[k..])
  {
    if k > 0 {
      var rest := rows[1..];
      assert forall i :: 0 <= i < |rest| ==> rest[i] == rows[i + 1];
      SeekFinds(rest, k - 1, since);
      assert rest[k - 1..] == rows[k..];
      var tail := LiveRefs(rest);
      if rows[0].Live? {
        assert ([rows[0].ref] + tail)[1..] == tail;
      } else {
        assert LiveRefs(rows) == tail;
      }
    } else {
      var refs := LiveRefs(rows);
      assert rows[0..] == rows;
      if refs != [] {
        LiveFrom(rows, refs[0]);
      }
    }
  }

  function Upto(refs: seq<Ref>, n: nat): seq<Ref> {
    if |refs| <= n then refs else refs[..n]
  }

  /** get_blob_refs_since: a cursor from the first row past `since`, live rows only, at most `max` of them. */
  method RefsSince(rows: seq<Row>, since: nat, max: nat) returns (refs: seq<Ref>)
    requires RowsOrdered(rows) && since < TWO_64 - 1 && max > 0
    ensures refs == Upto(LiveRefs(rows)[Position(LiveRefs(rows), since)..], max)
  {
    var k := LowerBound(rows, (since + 1) % TWO_64);
    SeekFinds(rows, k, since);
    refs := Collect(rows, k, max);
  }

  method LowerBound(rows: seq<Row>, lower: nat) returns (k: nat)
    requires RowsOrdered(rows)
    ensures k <= |rows| && forall i :: 0 <= i < k ==> RowSeq(rows[i]) < lower
    ensures forall i :: k <= i < |rows| ==> lower <= RowSeq(rows[i])
  {
    k := 0;
    while k < |rows| && RowSeq(rows[k]) < lower
      invariant k <= |rows| && forall i :: 0 <= i < k ==> RowSeq(rows[i]) < lower
    {
      k := k + 1;
    }
  }

  method Collect(rows: seq<Row>, start: nat, max: nat) returns (refs: seq<Ref>)
    requires start <= |rows|
    ensures refs == Upto(LiveRefs(rows[start..]), max)
  {
    refs := [];
    var k := start;
    while k < |rows| && |refs| < max
      invariant start <= k <= |rows| && |refs| <= max && refs + LiveRefs(rows[k..]) == LiveRefs(rows[start..])
    {
      assert rows[k..][1..] == rows[k + 1..];
      if rows[k].Live? {
        refs := refs + [rows[k].ref];
      }
      k := k + 1;
    }
    assert refs <= LiveRefs(rows[start..]);
  }

  /** The node's answer to a list request. */
  method ListRequest(rows: seq<Row>, since: nat, limit: nat) returns (page: Page)
    requires RowsOrdered(rows) && since < TWO_64 - 1
    ensures limit == 0 || limit >= MAX_LIST_LIMIT ==> page == PageAt(LiveRefs(rows), Position(LiveRefs(rows), since))
  {
    var most := if limit == 0 || limit > MAX_LIST_LIMIT then MAX_LIST_LIMIT else limit;
    var refs := RefsSince(rows, since, most + 1);
    var more := |refs| > most;
    if more {
      refs := refs[..most];
    }
    var entries := Filter(refs);
    page := Page(entries, more);
    UptoWindow(LiveRefs(rows), Position(LiveRefs(rows), since));
  }

  lemma UptoWindow(refs: seq<Ref>, p: nat)
    requires p <= |refs|
    ensures var got := Upto(refs[p..], MAX_LIST_LIMIT + 1);
      (|got| > MAX_LIST_LIMIT <==> |refs| - p > MAX_LIST_LIMIT) && Upto(got, MAX_LIST_LIMIT) == Window(refs, p)
  {
  }

  method Filter(refs: seq<Ref>) returns (entries: seq<Ref>)
    ensures entries == Kept(refs)
  {
    entries := [];
    var i := 0;
    while i < |refs|
      invariant i <= |refs| && entries + Kept(refs[i..]) == Kept(refs)
    {
      assert refs[i..][1..] == refs[i + 1..];
      if refs[i].kept {
        entries := entries + [refs[i]];
      }
      i := i + 1;
    }
  }

  lemma {:induction false} LastKept(window: seq<Ref>)
    requires Kept(window) != []
    ensures Kept(window)[|Kept(window)| - 1] == window[Advance(window) - 1]
  {
    if Kept(window[1..]) != [] {
      LastKept(window[1..]);
    }
  }

  lemma {:induction false} PositionOf(refs: seq<Ref>, q: nat)
    requires Ordered(refs) && 0 < q <= |refs|
    ensures Position(refs, refs[q - 1].seqNum) == q
  {
    if q == 1 {
      if |refs| > 1 {
        assert refs[1..][0] == refs[1];
      }
    } else {
      assert forall i :: 0 <= i < |refs[1..]| ==> refs[1..][i] == refs[i + 1];
      PositionOf(refs[1..], q - 1);
    }
  }

  /** The client's cursor after a page stands just past the page's last kept entry. */
  lemma CursorMoves(refs: seq<Ref>, p: nat)
    requires Ordered(refs) && p <= |refs| && Kept(Window(refs, p)) != []
    ensures var since := Kept(Window(refs, p))[|Kept(Window(refs, p))| - 1].seqNum;
      since < TWO_64 - 1 && Position(refs, since) == NextPosition(refs, p) > p
  {
    var w := Window(refs, p);
    LastKept(w);
    NextIsAnchor(refs, p);
    var q := NextPosition(refs, p);
    assert w[Advance(w) - 1] == refs[q - 1];
    PositionOf(refs, q);
  }

  /** One page moves its entries from what is still to be listed to what has been. */
  lemma PageMoves(refs: seq<Ref>, p: nat, out: seq<Ref>, all: seq<Ref>)
    requires p <= |refs| && out + Listed(refs, p) == all
    ensures var page := PageAt(refs, p);
      if page.entries == [] || !page.more then out + page.entries == all
      else out + page.entries + Listed(refs, NextPosition(refs, p)) == all
  {
    Regroup(out, PageAt(refs, p).entries, Listed(refs, NextPosition(refs, p)));
  }

  /** enumerate_name_blobs. `answered` is how many requests the node answers before the connection is lost. The
      result is what `Listed` says, or a prefix of it if the connection did not last. */
  method Enumerate(rows: seq<Row>, answered: nat) returns (out: seq<Ref>)
    requires RowsOrdered(rows)
    ensures out <= Listed(LiveRefs(rows), 0)
    ensures answered > |LiveRefs(rows)| ==> out == Listed(LiveRefs(rows), 0)
  {
    ghost var refs := LiveRefs(rows);
    ghost var all := Listed(refs, 0);
    LiveOrdered(rows);
    out := [];
    var since: nat, left: nat := 0, answered;
    ghost var p := 0;
    while left > 0
      invariant p == Position(refs, since) && since < TWO_64 - 1 && out + Listed(refs, p) == all
      invariant answered > |refs| ==> left > |refs| - p
      decreases left
    {
      left := left - 1;
      var page := ListRequest(rows, since, CLIENT_PAGE_LIMIT);
      PageMoves(refs, p, out, all);
      out := out + page.entries;
      if !page.more || page.entries == [] {
        return;
      }
      CursorMoves(refs, p);
      since := page.entries[|page.entries| - 1].seqNum;
      p := NextPosition(refs, p);
    }
  }

  // The winner among the records of one name.

  datatype Candidate = Candidate(hash: Bytes, timestamp: nat, target: Bytes)

  /** The comparator: later first, then the larger record hash. */
  predicate Before(a: Candidate, b: Candidate) {
    if a.timestamp != b.timestamp then a.timestamp > b.timestamp else Less(b.hash, a.hash)
  }

  /** What std::sort promises of its result: a permutation in which no element is before an earlier one. */
  predicate SortedFrom(v: seq<Candidate>, s: seq<Candidate>) {
    multiset(s) == multiset(v) && forall i, j :: 0 <= i < j < |s| ==> !Before(s[j], s[i])
  }

  /** Any such result starts with the latest candidate, and among the latest with the one of the largest hash. */
  lemma FrontIsMaximum(v: seq<Candidate>, s: seq<Candidate>)
    requires v != [] && SortedFrom(v, s)
    ensures s != [] && s[0] in v
    ensures forall c :: c in v ==>
      c.timestamp < s[0].timestamp || (c.timestamp == s[0].timestamp && !Less(s[0].hash, c.hash))
  {
    assert |multiset(s)| == |multiset(v)|;
    assert s[0] in multiset(v);
    forall c | c in v
      ensures c.timestamp < s[0].timestamp || (c.timestamp == s[0].timestamp && !Less(s[0].hash, c.hash))
    {
      assert c in multiset(s);
      var i :| 0 <= i < |s| && s[i] == c;
      if i == 0 {
        LessIrreflexive(c.hash);
      }
    }
  }

  /** So the winner does not depend on the order in which the records were found, nor on the sort: it is the
      lexicographic maximum of timestamp and record hash. A record hash names one record. */
  lemma WinnerOrderFree(v: seq<Candidate>, v': seq<Candidate>, s: seq<Candidate>, s': seq<Candidate>)
    requires v != [] && multiset(v) == multiset(v') && SortedFrom(v, s) && SortedFrom(v', s')
    requires forall a, b :: a in v && b in v && a.hash == b.hash ==> a == b
    ensures s != [] && s' != [] && s[0] == s'[0]
  {
    assert forall c :: c in v <==> c in multiset(v);
    assert forall c :: c in v' <==> c in multiset(v');
    assert v' != [] by {
      assert v[0] in multiset(v');
    }
    FrontIsMaximum(v, s);
    FrontIsMaximum(v', s');
    LessTotal(s[0].hash, s'[0].hash);
  }
}
