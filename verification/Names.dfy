/** Resolving a name to the hash it stands for (cli/src/commands.cpp): list the name records of a namespace, fetch those
    that match, and take the latest. When is that the latest there is? */
module Names {
  import opened Octets
  import opened Paging

  /** A name record as fetched and parsed. */
  datatype NameRecord = NameRecord(name: Bytes, timestamp: nat, target: Bytes)

  /** `read` gives the record under a hash; None if the blob is gone, does not decode or is no name record. */
  function CandidateOf(read: Bytes -> Option<NameRecord>, name: Bytes, r: Ref): Option<Candidate> {
    match read(r.hash)
    case None => None
    case Some(n) => if n.name == name then Some(Candidate(r.hash, n.timestamp, n.target)) else None
  }

  function Matching(read: Bytes -> Option<NameRecord>, name: Bytes, refs: seq<Ref>): seq<Candidate> {
    if refs == [] then []
    else
      var c := CandidateOf(read, name, refs[0]);
      (if c.Some? then [c.value] else []) + Matching(read, name, refs[1..])
  }

  lemma {:induction false} MatchingMembers(read: Bytes -> Option<NameRecord>, name: Bytes, refs: seq<Ref>, c: Candidate)
    ensures c in Matching(read, name, refs) <==> exists r :: r in refs && CandidateOf(read, name, r) == Some(c)
  {
    if refs != [] {
      MatchingMembers(read, name, refs[1..], c);
      assert refs == [refs[0]] + refs[1..];
    }
  }

  /** No candidate is before it. */
  ghost predicate Best(c: Candidate, v: seq<Candidate>) {
    c in v && forall d :: d in v ==> !Before(d, c)
  }

  // The loops.

  /** pick_name_winner, with any sort that sorts. */
  method PickWinner(v: seq<Candidate>, sort: seq<Candidate> -> seq<Candidate>) returns (winner: Option<Candidate>)
    requires SortedFrom(v, sort(v))
    ensures winner.None? <==> v == []
    ensures winner.Some? ==> Best(winner.value, v)
  {
    if v == [] {
      return None;
    }
    FrontIsMaximum(v, sort(v));
    winner := Some(sort(v)[0]);
  }

  method FetchMatching(read: Bytes -> Option<NameRecord>, name: Bytes, refs: seq<Ref>) returns (matches: seq<Candidate>)
    ensures matches == Matching(read, name, refs)
  {
    matches := [];
    var i := 0;
    while i < |refs|
      invariant i <= |refs| && matches + Matching(read, name, refs[i..]) == Matching(read, name, refs)
    {
      assert refs[i..][1..] == refs[i + 1..];
      var c := CandidateOf(read, name, refs[i]);
      if c.Some? {
        matches := matches + [c.value];
      }
      i := i + 1;
    }
  }

  /** resolve_name_to_target_hash, on a connection that lasts through the listing: the target of the latest of the
      records listed, and with small gaps of all there are. */
  method Resolve(rows: seq<Row>, answered: nat, read: Bytes -> Option<NameRecord>, name: Bytes,
                 sort: seq<Candidate> -> seq<Candidate>) returns (target: Option<Bytes>)
    requires RowsOrdered(rows) && answered > |LiveRefs(rows)| && forall v :: SortedFrom(v, sort(v))
    ensures var v := Matching(read, name, Listed(LiveRefs(rows), 0));
      && (target.None? <==> v == [])
      && (target.Some? ==> exists c :: Best(c, v) && c.target == target.value)
    ensures GapsSmall(LiveRefs(rows)) ==>
      var all := Matching(read, name, Kept(LiveRefs(rows)));
      && (target.None? <==> all == [])
      && (target.Some? ==> exists c :: Best(c, all) && c.target == target.value)
  {
    if GapsSmall(LiveRefs(rows)) {
      LiveOrdered(rows);
      ListingCompleteIff(LiveRefs(rows));
    }
    var refs := Enumerate(rows, answered);
    var matches := FetchMatching(read, name, refs);
    var winner := PickWinner(matches, sort);
    target := if winner.None? then None else Some(winner.value.target);
  }

  // What is listed.

  /** Nothing at or behind an entry that is behind a gap is listed. */
  lemma {:induction false} GapCuts(refs: seq<Ref>, p: nat, i: nat, j: nat)
    requires Ordered(refs) && p <= i <= j < |refs| && BehindGap(refs, i) && Anchor(refs, p - 1)
    ensures refs[j] !in Listed(refs, p)
    decreases |refs| - p
  {
    WindowMisses(refs, p, i);
    KeptMembers(Window(refs, p), refs[j]);
    if Kept(Window(refs, p)) != [] {
      NextIsAnchor(refs, p);
      GapCuts(refs, NextPosition(refs, p), i, j);
    }
  }

  /** The next kept entry at or after `p` lies in the window, if no gap is in the way. */
  lemma WindowHits(refs: seq<Ref>, p: nat, j: nat)
    requires p <= j < |refs| && refs[j].kept && Anchor(refs, p - 1)
    requires forall i :: p <= i <= j ==> !BehindGap(refs, i)
    ensures Kept(Window(refs, p)) != []
  {
    KeptMembers(refs[p..], refs[j]);
    assert refs[p..][j - p] == refs[j];
    var k := FirstKept(refs, p);
    assert k <= j && !BehindGap(refs, k);
    assert Reached(refs, k);
    var i :| k - MAX_LIST_LIMIT <= i < k && Anchor(refs, i);
    var w := Window(refs, p);
    assert w[k - p] == refs[k];
    KeptMembers(w, refs[k]);
  }

  lemma {:induction false} NoGapLists(refs: seq<Ref>, p: nat, j: nat)
    requires p <= j < |refs| && refs[j].kept && Anchor(refs, p - 1)
    requires forall i :: p <= i <= j ==> !BehindGap(refs, i)
    ensures refs[j] in Listed(refs, p)
    decreases |refs| - p
  {
    var w := Window(refs, p);
    WindowHits(refs, p, j);
    NextIsAnchor(refs, p);
    var q := NextPosition(refs, p);
    if j < p + |w| {
      assert w[j - p] == refs[j];
      KeptMembers(w, refs[j]);
    } else {
      NoGapLists(refs, q, j);
    }
  }

  /** An entry that passes the filters is listed exactly if neither it nor any entry before it is behind a gap. */
  lemma ListedIff(refs: seq<Ref>, j: nat)
    requires Ordered(refs) && j < |refs| && refs[j].kept
    ensures refs[j] in Listed(refs, 0) <==> forall i :: 0 <= i <= j ==> !BehindGap(refs, i)
  {
    if forall i :: 0 <= i <= j ==> !BehindGap(refs, i) {
      NoGapLists(refs, 0, j);
    } else {
      var i :| 0 <= i <= j && BehindGap(refs, i);
      GapCuts(refs, 0, i, j);
    }
  }

  // Which record wins.

  /** A hash is stored once. */
  predicate OneEach(refs: seq<Ref>) {
    forall i, j :: 0 <= i < j < |refs| ==> refs[i].hash != refs[j].hash
  }

  lemma ListedAreKept(refs: seq<Ref>, r: Ref)
    requires r in Listed(refs, 0)
    ensures r in refs && r.kept
  {
    ListedIsPrefix(refs, 0);
    assert refs[0..] == refs;
    KeptMembers(refs, r);
  }

  /** A record is among the candidates exactly if its entry is listed. */
  lemma FoundIffListed(read: Bytes -> Option<NameRecord>, name: Bytes, refs: seq<Ref>, j: nat, c: Candidate)
    requires OneEach(refs) && j < |refs| && CandidateOf(read, name, refs[j]) == Some(c)
    ensures c in Matching(read, name, Listed(refs, 0)) <==> refs[j] in Listed(refs, 0)
  {
    MatchingMembers(read, name, Listed(refs, 0), c);
    if c in Matching(read, name, Listed(refs, 0)) {
      var r :| r in Listed(refs, 0) && CandidateOf(read, name, r) == Some(c);
      ListedAreKept(refs, r);
      var i :| 0 <= i < |refs| && refs[i] == r;
      assert i == j;
    }
  }

  lemma ListedMatchAll(read: Bytes -> Option<NameRecord>, name: Bytes, refs: seq<Ref>, d: Candidate)
    requires d in Matching(read, name, Listed(refs, 0))
    ensures d in Matching(read, name, Kept(refs))
  {
    MatchingMembers(read, name, Listed(refs, 0), d);
    var r :| r in Listed(refs, 0) && CandidateOf(read, name, r) == Some(d);
    ListedAreKept(refs, r);
    KeptMembers(refs, r);
    MatchingMembers(read, name, Kept(refs), d);
  }

  /** The latest record of all, at place `j` of the index, wins exactly if neither it nor any entry before it is behind
      a gap. */
  lemma LatestWinsIff(read: Bytes -> Option<NameRecord>, name: Bytes, refs: seq<Ref>, j: nat, c: Candidate)
    requires Ordered(refs) && OneEach(refs) && j < |refs| && refs[j].kept
    requires CandidateOf(read, name, refs[j]) == Some(c) && Best(c, Matching(read, name, Kept(refs)))
    ensures Best(c, Matching(read, name, Listed(refs, 0))) <==> forall i :: 0 <= i <= j ==> !BehindGap(refs, i)
  {
    ListedIff(refs, j);
    FoundIffListed(read, name, refs, j, c);
    forall d | d in Matching(read, name, Listed(refs, 0))
      ensures !Before(d, c)
    {
      ListedMatchAll(read, name, refs, d);
    }
  }

  // An older record that wins.

  /** A record, a hundred other entries, and a record that is before it in the order of winners. */
  ghost predicate Gapped(read: Bytes -> Option<NameRecord>, name: Bytes, refs: seq<Ref>, first: Candidate,
                         last: Candidate) {
    && Ordered(refs) && |refs| == 102 && (forall i :: 0 <= i < 102 ==> (refs[i].kept <==> i == 0 || i == 101))
    && CandidateOf(read, name, refs[0]) == Some(first) && CandidateOf(read, name, refs[101]) == Some(last)
    && Before(last, first)
  }

  lemma GappedExists(name: Bytes) returns (read: Bytes -> Option<NameRecord>, refs: seq<Ref>, first: Candidate,
                                           last: Candidate)
    ensures Gapped(read, name, refs, first, last)
  {
    read := (h: Bytes) => if h == [0] then Some(NameRecord(name, 1, [1])) else Some(NameRecord(name, 2, [2]));
    refs := seq(102, i requires 0 <= i < 102 => Ref(i + 1, [i as byte], i == 0 || i == 101, 0));
    first, last := Candidate([0], 1, [1]), Candidate([101], 2, [2]);
  }

  lemma KeptOfGapped(read: Bytes -> Option<NameRecord>, name: Bytes, refs: seq<Ref>, first: Candidate, last: Candidate,
                     some: seq<Ref>, d: Candidate)
    requires Gapped(read, name, refs, first, last) && d in Matching(read, name, some)
    requires forall r :: r in some ==> r in refs && r.kept
    ensures d == first || d == last
  {
    MatchingMembers(read, name, some, d);
    var r :| r in some && CandidateOf(read, name, r) == Some(d);
    assert r == refs[0] || r == refs[101];
  }

  /** The later record is the best of all, and the older one is resolved: it is the best of those listed. */
  lemma OlderNameWins(read: Bytes -> Option<NameRecord>, name: Bytes, refs: seq<Ref>, first: Candidate, last: Candidate)
    requires Gapped(read, name, refs, first, last)
    ensures Best(last, Matching(read, name, Kept(refs)))
    ensures Best(first, Matching(read, name, Listed(refs, 0))) && last !in Matching(read, name, Listed(refs, 0))
  {
    LaterIsBest(read, name, refs, first, last);
    var listed := Listed(refs, 0);
    assert !Reached(refs, 101);
    ListedIff(refs, 101);
    ListedIff(refs, 0);
    MatchingMembers(read, name, listed, first);
    forall d | d in Matching(read, name, listed)
      ensures d == first
    {
      MatchingMembers(read, name, listed, d);
      var r :| r in listed && CandidateOf(read, name, r) == Some(d);
      ListedAreKept(refs, r);
      assert r == refs[0];
    }
    LessIrreflexive(first.hash);
  }

  lemma LaterIsBest(read: Bytes -> Option<NameRecord>, name: Bytes, refs: seq<Ref>, first: Candidate, last: Candidate)
    requires Gapped(read, name, refs, first, last)
    ensures Best(last, Matching(read, name, Kept(refs)))
  {
    KeptMembers(refs, refs[101]);
    MatchingMembers(read, name, Kept(refs), last);
    forall d | d in Matching(read, name, Kept(refs))
      ensures !Before(d, last)
    {
      forall r | r in Kept(refs)
        ensures r in refs && r.kept
      {
        KeptMembers(refs, r);
      }
      KeptOfGapped(read, name, refs, first, last, Kept(refs), d);
      LessIrreflexive(last.hash);
      if Less(first.hash, last.hash) && Less(last.hash, first.hash) {
        LessTransitive(first.hash, last.hash, first.hash);
        LessIrreflexive(first.hash);
      }
    }
  }
}
