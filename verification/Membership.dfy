/** membership.go, and the peer list of shard.go: who a worker believes is in the fleet. */
module Membership {
  import opened Basics
  import opened Names
  import Rendezvous

  // shard.go:84-104.

  predicate IsSpace(b: bv8) {
    b == 32 || 9 <= b <= 13
  }

  function TrimLeft(s: Name): Name {
    if s != [] && IsSpace(s[0]) then TrimLeft(s[1..]) else s
  }

  function TrimRight(s: Name): Name {
    if s != [] && IsSpace(s[|s| - 1]) then TrimRight(s[..|s| - 1]) else s
  }

  function Trim(s: Name): Name {
    TrimRight(TrimLeft(s))
  }

  /** The white space at both ends is gone, and nothing else. */
  lemma TrimIs(s: Name) returns (i: nat, j: nat)
    ensures i <= j <= |s| && Trim(s) == s[i..j]
    ensures forall k :: 0 <= k < i || j <= k < |s| ==> s[k] in {9, 10, 11, 12, 13, 32}
    ensures i < j ==> s[i] !in {9, 10, 11, 12, 13, 32} && s[j - 1] !in {9, 10, 11, 12, 13, 32}
  {
    i := TrimLeftIs(s);
    var t := s[i..];
    var m := TrimRightIs(t);
    j := i + m;
    assert t[..m] == s[i..j];
    forall k | j <= k < |s|
      ensures s[k] in {9, 10, 11, 12, 13, 32}
    {
      assert s[k] == t[k - i];
    }
    if i < j {
      assert t[0] == s[i] && t[m - 1] == s[j - 1];
    }
  }

  lemma SpaceIs(b: bv8)
    ensures IsSpace(b) <==> b in {9, 10, 11, 12, 13, 32}
  {}

  lemma {:induction false} TrimLeftIs(s: Name) returns (i: nat)
    ensures i <= |s| && TrimLeft(s) == s[i..]
    ensures forall k :: 0 <= k < i ==> s[k] in {9, 10, 11, 12, 13, 32}
    ensures i < |s| ==> s[i] !in {9, 10, 11, 12, 13, 32}
  {
    if s != [] {
      SpaceIs(s[0]);
    }
    if s != [] && IsSpace(s[0]) {
      var n := TrimLeftIs(s[1..]);
      i := n + 1;
      assert s[1..][n..] == s[i..];
      forall k | 0 <= k < i
        ensures s[k] in {9, 10, 11, 12, 13, 32}
      {
        assert k > 0 ==> s[k] == s[1..][k - 1];
      }
    } else {
      i := 0;
    }
  }

  lemma {:induction false} TrimRightIs(s: Name) returns (j: nat)
    ensures j <= |s| && TrimRight(s) == s[..j]
    ensures forall k :: j <= k < |s| ==> s[k] in {9, 10, 11, 12, 13, 32}
    ensures j > 0 ==> s[j - 1] !in {9, 10, 11, 12, 13, 32}
  {
    if s != [] {
      SpaceIs(s[|s| - 1]);
    }
    if s != [] && IsSpace(s[|s| - 1]) {
      j := TrimRightIs(s[..|s| - 1]);
      assert s[..|s| - 1][..j] == s[..j];
    } else {
      j := |s|;
    }
  }

  /** What the configuration makes of an identity: trimmed and not empty. */
  predicate IsIdentity(s: Name) {
    s != [] && Trim(s) == s
  }

  /** The peers a list stands for. */
  function PeerSet(peers: seq<Name>): set<Name> {
    set p | p in peers && Trim(p) != [] :: Trim(p)
  }

  ghost predicate Distinct(s: seq<Name>) {
    forall i, j :: 0 <= i < j < |s| ==> s[i] != s[j]
  }

  /** One `add` of the loop. */
  function AddPeer(out: seq<Name>, p: Name): seq<Name> {
    if Trim(p) == [] || Trim(p) in out then out else out + [Trim(p)]
  }

  function Collect(peers: seq<Name>): seq<Name> {
    if peers == [] then [] else AddPeer(Collect(peers[..|peers| - 1]), peers[|peers| - 1])
  }

  function NormalizedPeers(peers: seq<Name>, self: Name): seq<Name> {
    Sort(Collect(peers + [self]))
  }

  lemma {:induction false} CollectIs(peers: seq<Name>)
    ensures Distinct(Collect(peers)) && Elements(Collect(peers)) == PeerSet(peers)
  {
    if peers != [] {
      var init, p := peers[..|peers| - 1], peers[|peers| - 1];
      CollectIs(init);
      assert peers == init + [p];
      assert PeerSet(peers) == if Trim(p) == [] then PeerSet(init) else PeerSet(init) + {Trim(p)};
      assert Trim(p) in Collect(init) <==> Trim(p) in Elements(Collect(init));
      assert Elements(Collect(init) + [Trim(p)]) == Elements(Collect(init)) + {Trim(p)};
    }
  }

  /** The peer list is sorted, free of repetition, and holds exactly the listed peers and this worker. */
  lemma NormalizedPeersAre(peers: seq<Name>, self: Name)
    requires IsIdentity(self)
    ensures
      var out := NormalizedPeers(peers, self);
      Ascending(out) && Elements(out) == PeerSet(peers) + {self} && self in out
  {
    CollectIs(peers + [self]);
    SortAscending(Collect(peers + [self]));
    assert PeerSet(peers + [self]) == PeerSet(peers) + {self} by {
      forall p | p in PeerSet(peers) + {self}
        ensures p in PeerSet(peers + [self])
      {
        assert (peers + [self])[|peers|] == self;
      }
    }
    assert self in Elements(NormalizedPeers(peers, self));
  }

  method NormalizePeers(peers: seq<Name>, self: Name) returns (out: seq<Name>)
    ensures out == NormalizedPeers(peers, self)
  {
    out := [];
    var seen: set<Name> := {};
    for i := 0 to |peers|
      invariant out == Collect(peers[..i]) && seen == Elements(out)
    {
      assert peers[..i + 1][..i] == peers[..i];
      out, seen := Add(out, seen, peers[i]);
    }
    assert peers[..|peers|] == peers;
    assert (peers + [self])[..|peers|] == peers;
    out, seen := Add(out, seen, self);
    out := Sort(out);
  }

  method Add(out: seq<Name>, seen: set<Name>, p: Name) returns (out': seq<Name>, seen': set<Name>)
    requires seen == Elements(out)
    ensures out' == AddPeer(out, p) && seen' == Elements(out')
  {
    out', seen' := out, seen;
    var t := Trim(p);
    if t == [] {
      return;
    }
    if t in seen {
      return;
    }
    seen' := seen + {t};
    out' := out + [t];
  }

  // The peer source.

  datatype Mode = Static | Dns | Store | Alone

  datatype Lookup = Found(ids: seq<Name>) | LookupFailed

  /** An empty answer counts in store mode; from DNS it is a resolution problem. */
  predicate IsGood(mode: Mode, l: Lookup) {
    l.Found? && (mode.Dns? ==> l.ids != [])
  }

  function LastGood(mode: Mode, h: seq<Lookup>): Option<seq<Name>> {
    if h == [] then None
    else if IsGood(mode, h[|h| - 1]) then Some(h[|h| - 1].ids)
    else LastGood(mode, h[..|h| - 1])
  }

  /** `LastGood` is the answer of the latest good lookup. */
  lemma {:induction false} LastGoodIs(mode: Mode, h: seq<Lookup>, i: nat)
    requires i < |h| && IsGood(mode, h[i]) && forall j :: i < j < |h| ==> !IsGood(mode, h[j])
    ensures LastGood(mode, h) == Some(h[i].ids)
  {
    if i < |h| - 1 {
      LastGoodIs(mode, h[..|h| - 1], i);
    }
  }

  /** Before the first good lookup there is nothing to remember. */
  lemma {:induction false} NoneGood(mode: Mode, h: seq<Lookup>)
    requires forall j :: 0 <= j < |h| ==> !IsGood(mode, h[j])
    ensures LastGood(mode, h) == None
  {
    if h != [] {
      NoneGood(mode, h[..|h| - 1]);
    }
  }

  predicate LooksUp(mode: Mode) {
    mode.Dns? || mode.Store?
  }

  /** The peer set after a history of lookups: the last good answer with this worker added, or this worker alone. */
  function PeersAfter(mode: Mode, self: Name, fixed: seq<Name>, h: seq<Lookup>): seq<Name> {
    match mode
    case Static => NormalizedPeers(fixed, self)
    case Alone => NormalizedPeers([], self)
    case _ =>
      match LastGood(mode, h)
      case None => NormalizedPeers([], self)
      case Some(ids) => NormalizedPeers(ids, self)
  }

  class PeerSource {
    const self: Name
    const mode: Mode
    const fixed: seq<Name>
    var last: seq<Name>
    var warned: bool
    ghost var history: seq<Lookup>

    ghost predicate Valid()
      reads this
    {
      && IsIdentity(self)
      && last == (match LastGood(mode, history)
                  case None => []
                  case Some(ids) => NormalizedPeers(ids, self))
      && (warned ==> history != [] && !IsGood(mode, history[|history| - 1]))
    }

    constructor (self: Name, mode: Mode, fixed: seq<Name>)
      requires IsIdentity(self)
      ensures Valid() && history == [] && this.self == self && this.mode == mode && this.fixed == fixed
    {
      this.self, this.mode, this.fixed := self, mode, fixed;
      last, warned, history := [], false, [];
    }

    /** One resolution of the peer set; the answer of a lookup counts in the two modes that make one. */
    method Peers(answer: Lookup) returns (peers: seq<Name>)
      requires Valid()
      modifies this
      ensures Valid() && history == if LooksUp(mode) then old(history) + [answer] else old(history)
      ensures peers == PeersAfter(mode, self, fixed, history)
      ensures if LooksUp(mode) then warned <==> !IsGood(mode, answer) else warned == old(warned) && last == old(last)
    {
      hide NormalizedPeers, IsIdentity;
      if mode.Static? {
        peers := NormalizePeers(fixed, self);
        return;
      }
      if mode.Alone? {
        peers := NormalizePeers([], self);
        return;
      }
      history := history + [answer];
      assert history[..|history| - 1] == old(history);
      if mode.Store? && answer.Found? {
        warned := false;
        last := NormalizePeers(answer.ids, self);
        return last;
      }
      peers := Keep(answer);
    }

    method Keep(answer: Lookup) returns (peers: seq<Name>)
      requires IsIdentity(self) && history != [] && history[|history| - 1] == answer
      requires mode.Dns? || (mode.Store? && answer.LookupFailed?)
      requires
        last == match LastGood(mode, history[..|history| - 1])
                case None => []
                case Some(ids) => NormalizedPeers(ids, self)
      modifies this`last, this`warned
      ensures Valid()
      ensures peers == PeersAfter(mode, self, fixed, history)
      ensures warned <==> !IsGood(mode, answer)
    {
      if answer.Found? && |answer.ids| > 0 {
        warned := false;
        last := NormalizePeers(answer.ids, self);
        return last;
      }
      if LastGood(mode, history).Some? {
        NormalizedPeersAre(LastGood(mode, history).value, self);
      }
      warned := true;
      if |last| > 0 {
        return last;
      }
      peers := NormalizePeers([], self);
    }
  }

  /** Over any history of lookups the peer set is sorted, free of repetition, and contains this worker. */
  lemma PeersAlwaysUsable(mode: Mode, self: Name, fixed: seq<Name>, h: seq<Lookup>)
    requires IsIdentity(self)
    ensures Ascending(PeersAfter(mode, self, fixed, h)) && self in PeersAfter(mode, self, fixed, h)
  {
    hide NormalizedPeers, LastGood, Ascending, IsIdentity, PeerSet;
    NormalizedPeersAre(fixed, self);
    NormalizedPeersAre([], self);
    if LastGood(mode, h).Some? {
      NormalizedPeersAre(LastGood(mode, h).value, self);
    }
  }

  /**
   * The peers, element by element: this worker, and every listed name that is not empty without the space around it.
   * A fixed list and a worker that runs alone do not look anything up.
   */
  lemma PeersAre(mode: Mode, self: Name, fixed: seq<Name>, h: seq<Lookup>, n: Name)
    requires IsIdentity(self)
    ensures mode.Static? ==>
              (n in PeersAfter(mode, self, fixed, h) <==>
               n == self || (n != [] && exists p :: p in fixed && Trim(p) == n))
    ensures mode.Alone? ==> PeersAfter(mode, self, fixed, h) == [self]
  {
    JustSelf(self);
    NormalizedPeersAre(fixed, self);
    assert n in NormalizedPeers(fixed, self) <==> n in Elements(NormalizedPeers(fixed, self));
    hide Trim, NormalizedPeers;
  }

  /** One lookup more: an answer counts, but for an empty one from DNS; a failure leaves what was last good. */
  lemma PeersAfterLookup(mode: Mode, self: Name, fixed: seq<Name>, h: seq<Lookup>, l: Lookup, n: Name)
    requires IsIdentity(self)
    requires mode.Dns? || mode.Store?
    ensures l.LookupFailed? || (mode.Dns? && l.ids == []) ==>
              PeersAfter(mode, self, fixed, h + [l]) == PeersAfter(mode, self, fixed, h)
    ensures l.Found? && (mode.Store? || l.ids != []) ==>
              (n in PeersAfter(mode, self, fixed, h + [l]) <==>
               n == self || (n != [] && exists p :: p in l.ids && Trim(p) == n))
  {
    assert (h + [l])[..|h|] == h;
    if l.Found? {
      NormalizedPeersAre(l.ids, self);
      assert n in NormalizedPeers(l.ids, self) <==> n in Elements(NormalizedPeers(l.ids, self));
    }
    hide Trim, NormalizedPeers;
  }

  /** A worker alone. */
  lemma JustSelf(self: Name)
    requires IsIdentity(self)
    ensures NormalizedPeers([], self) == [self]
  {
    NormalizedPeersAre([], self);
    assert Ascending([self]);
    assert Elements([self]) == {self};
    AscendingUnique(NormalizedPeers([], self), [self]);
  }

  /**
   * Where lookups are made, the peers are those of the latest good one, with this worker; until there is a good one
   * they are this worker alone. Failed lookups in between do not show.
   */
  lemma PeersFollowLatestGood(mode: Mode, self: Name, fixed: seq<Name>, h: seq<Lookup>, i: nat)
    requires LooksUp(mode) && IsIdentity(self) && i <= |h|
    requires i > 0 ==> IsGood(mode, h[i - 1])
    requires forall j :: i <= j < |h| ==> !IsGood(mode, h[j])
    ensures i > 0 ==> Elements(PeersAfter(mode, self, fixed, h)) == PeerSet(h[i - 1].ids) + {self}
    ensures i == 0 ==> PeersAfter(mode, self, fixed, h) == [self]
  {
    if i > 0 {
      LastGoodIs(mode, h, i - 1);
      NormalizedPeersAre(h[i - 1].ids, self);
    } else {
      NoneGood(mode, h);
      JustSelf(self);
    }
  }

  /** Workers whose peer sets are equal have equal lists, so they decide from the same input. */
  lemma EqualSetsEqualLists(a: seq<Name>, b: seq<Name>, v: Name, w: Name)
    requires IsIdentity(v) && IsIdentity(w) && PeerSet(a) + {v} == PeerSet(b) + {w}
    ensures NormalizedPeers(a, v) == NormalizedPeers(b, w)
  {
    NormalizedPeersAre(a, v);
    NormalizedPeersAre(b, w);
    AscendingUnique(NormalizedPeers(a, v), NormalizedPeers(b, w));
  }

  // The heartbeat table, store_postgres.go:321-354.

  datatype Beat = Beat(worker: Name, at: int)

  class HeartbeatTable {
    var lastSeen: map<Name, int>
    var now: int
    ghost var beats: seq<Beat>

    ghost predicate Valid()
      reads this
    {
      lastSeen == LastSeen(beats) && InOrder(beats) && forall i :: 0 <= i < |beats| ==> beats[i].at <= now
    }

    constructor ()
      ensures Valid() && beats == []
    {
      lastSeen, now, beats := map[], 0, [];
    }

    method Heartbeat(id: Name)
      requires Valid()
      modifies this`lastSeen, this`beats
      ensures Valid() && beats == old(beats) + [Beat(id, now)]
    {
      hide LastSeen, Less;
      LastSeenNext(beats, Beat(id, now));
      beats := beats + [Beat(id, now)];
      lastSeen := lastSeen[id := now];
    }

    /** The ids seen within the time to live, each once, in the order the database collates them. */
    method Peers(ttl: int) returns (ids: seq<Name>)
      requires Valid()
      ensures Distinct(ids) && Elements(ids) == LiveIds(lastSeen, ttl, now)
    {
      ids := [];
      var left := LiveIds(lastSeen, ttl, now);
      while left != {}
        invariant Distinct(ids) && Elements(ids) + left == LiveIds(lastSeen, ttl, now)
        invariant forall i :: 0 <= i < |ids| ==> ids[i] !in left
        decreases left
      {
        var id :| id in left;
        assert Elements(ids + [id]) == Elements(ids) + {id};
        ids := ids + [id];
        left := left - {id};
      }
    }
  }

  function LiveIds(lastSeen: map<Name, int>, ttl: int, now: int): set<Name> {
    set id | id in lastSeen && lastSeen[id] > now - ttl
  }

  function LastSeen(beats: seq<Beat>): map<Name, int> {
    if beats == [] then map[]
    else LastSeen(beats[..|beats| - 1])[beats[|beats| - 1].worker := beats[|beats| - 1].at]
  }

  lemma LastSeenNext(beats: seq<Beat>, beat: Beat)
    ensures LastSeen(beats + [beat]) == LastSeen(beats)[beat.worker := beat.at]
  {
    assert (beats + [beat])[..|beats|] == beats;
  }

  /** The database clock stamps every beat. */
  ghost predicate InOrder(beats: seq<Beat>) {
    forall i, j :: 0 <= i < j < |beats| ==> beats[i].at <= beats[j].at
  }

  ghost predicate BeatSince(beats: seq<Beat>, id: Name, after: int) {
    exists i :: 0 <= i < |beats| && beats[i].worker == id && beats[i].at > after
  }

  lemma BeatSinceSplits(beats: seq<Beat>, id: Name, after: int)
    requires beats != []
    ensures
      var last := beats[|beats| - 1];
      BeatSince(beats, id, after) <==>
      BeatSince(beats[..|beats| - 1], id, after) || (last.worker == id && last.at > after)
  {
    var init := beats[..|beats| - 1];
    if BeatSince(init, id, after) {
      var i :| 0 <= i < |init| && init[i].worker == id && init[i].at > after;
      assert beats[i] == init[i];
    }
    if BeatSince(beats, id, after) {
      var i :| 0 <= i < |beats| && beats[i].worker == id && beats[i].at > after;
      assert i < |init| ==> init[i] == beats[i];
    }
  }

  /** A worker is listed exactly while its latest beat is younger than the time to live. */
  lemma {:induction false} ListedIffBeating(beats: seq<Beat>, id: Name, ttl: int, now: int)
    requires InOrder(beats)
    ensures id in LiveIds(LastSeen(beats), ttl, now) <==> BeatSince(beats, id, now - ttl)
  {
    if beats != [] {
      var init, last := beats[..|beats| - 1], beats[|beats| - 1];
      ListedIffBeating(init, id, ttl, now);
      BeatSinceSplits(beats, id, now - ttl);
      if last.worker == id && BeatSince(init, id, now - ttl) {
        var i :| 0 <= i < |init| && init[i].worker == id && init[i].at > now - ttl;
        assert beats[i].at <= last.at;
      }
    }
  }

  /** A read made at `at` that found everything beaten so far. */
  datatype Read = Read(beats: seq<Beat>, at: int, ids: seq<Name>)

  ghost predicate IsRead(r: Read, ttl: int) {
    InOrder(r.beats) && Elements(r.ids) == LiveIds(LastSeen(r.beats), ttl, r.at)
  }

  /** Every live worker beat within the time to live before the read, and nobody else did. */
  ghost predicate BeatsTell(r: Read, ttl: int, live: set<Name>) {
    forall id :: BeatSince(r.beats, id, r.at - ttl) <==> id in live
  }

  lemma ReadSeesLive(r: Read, ttl: int, live: set<Name>, self: Name)
    requires IsRead(r, ttl) && BeatsTell(r, ttl, live)
    requires self in live && forall w :: w in live ==> IsIdentity(w)
    ensures Elements(NormalizedPeers(r.ids, self)) == live
  {
    forall id
      ensures id in r.ids <==> id in live
    {
      ListedIffBeating(r.beats, id, ttl, r.at);
      assert id in r.ids <==> id in Elements(r.ids);
    }
    assert PeerSet(r.ids) == live;
    NormalizedPeersAre(r.ids, self);
  }

  /**
   * Takeover: once the beats tell the live workers from the stopped ones, each live worker's own read, at its own time,
   * gives exactly the live set, and every hash has exactly one publisher, the best live worker.
   */
  lemma HeartbeatTakeover(answers: map<Name, Read>, ttl: int, live: set<Name>, hash: Name, w: Name)
    requires live != {} && live <= answers.Keys && forall v :: v in live ==> IsIdentity(v)
    requires forall v :: v in live ==> IsRead(answers[v], ttl) && BeatsTell(answers[v], ttl, live)
    ensures
      var f := Rendezvous.Fleet(live, map v | v in live :: NormalizedPeers(answers[v].ids, v));
      && Rendezvous.SelfViewed(f)
      && (forall v :: v in live ==> Elements(f.views[v]) == live)
      && (forall u, v :: u in live && v in live ==> f.views[u] == f.views[v])
      && (Rendezvous.Publishes(f, hash, w) <==> Rendezvous.IsTop(hash, live, w))
      && exists v :: Rendezvous.Publishes(f, hash, v)
  {
    var f := Rendezvous.Fleet(live, map v | v in live :: NormalizedPeers(answers[v].ids, v));
    forall v | v in live
      ensures v in f.views[v] && Elements(f.views[v]) == live
    {
      ReadSeesLive(answers[v], ttl, live, v);
      NormalizedPeersAre(answers[v].ids, v);
    }
    assert Rendezvous.SelfViewed(f);
    forall u, v | u in live && v in live
      ensures f.views[u] == f.views[v]
    {
      NormalizedPeersAre(answers[u].ids, u);
      NormalizedPeersAre(answers[v].ids, v);
      EqualSetsEqualLists(answers[u].ids, answers[v].ids, u, v);
    }
    Rendezvous.ExactlyOnePublisher(f, hash, w);
  }
}
