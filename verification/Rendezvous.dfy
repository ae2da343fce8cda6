/** shard.go: rendezvous ownership of a metric hash over a peer set. */
module Rendezvous {
  import opened Names
  import PairHash

  /** `p` is a better owner of `hash` than `q`: the higher score, the smaller name on a tie. */
  predicate Beats(hash: Name, p: Name, q: Name) {
    var a, b := PairHash.Score(hash, p), PairHash.Score(hash, q);
    a > b || (a == b && Less(p, q))
  }

  lemma BeatsIrreflexive(hash: Name, p: Name)
    ensures !Beats(hash, p, p)
  {
    LessIrreflexive(p);
  }

  lemma BeatsTransitive(hash: Name, p: Name, q: Name, r: Name)
    requires Beats(hash, p, q) && Beats(hash, q, r)
    ensures Beats(hash, p, r)
  {
    if Less(p, q) && Less(q, r) {
      LessTransitive(p, q, r);
    }
  }

  lemma BeatsTotal(hash: Name, p: Name, q: Name)
    requires p != q
    ensures Beats(hash, p, q) || Beats(hash, q, p)
  {
    LessTotal(p, q);
  }

  /** The running best of a pass over the list; nothing for an empty list. */
  function OwnerOf(hash: Name, peers: seq<Name>): Name {
    if peers == [] then []
    else if |peers| == 1 then peers[0]
    else
      var last := peers[|peers| - 1];
      var best := OwnerOf(hash, peers[..|peers| - 1]);
      if Beats(hash, last, best) then last else best
  }

  method Owner(hash: Name, peers: seq<Name>) returns (best: Name)
    ensures best == OwnerOf(hash, peers)
  {
    best := [];
    var bestScore := 0;
    var first := true;
    for i := 0 to |peers|
      invariant first == (i == 0)
      invariant best == OwnerOf(hash, peers[..i])
      invariant !first ==> bestScore == PairHash.Score(hash, best)
    {
      var p := peers[i];
      var score := PairHash.PairHash(hash, p);
      assert peers[..i + 1][..i] == peers[..i] && peers[..i + 1][i] == p;
      if first || score > bestScore || (score == bestScore && Less(p, best)) {
        best, bestScore, first := p, score, false;
      }
    }
    assert peers[..|peers|] == peers;
  }

  predicate Owns(hash: Name, self: Name, peers: seq<Name>) {
    |peers| <= 1 || OwnerOf(hash, peers) == self
  }

  ghost predicate IsTop(hash: Name, peers: set<Name>, o: Name) {
    o in peers && forall q :: q in peers && q != o ==> Beats(hash, o, q)
  }

  lemma TopUnique(hash: Name, peers: set<Name>, o: Name, o': Name)
    requires IsTop(hash, peers, o) && IsTop(hash, peers, o')
    ensures o == o'
  {
    if o != o' {
      BeatsTransitive(hash, o, o', o);
      BeatsIrreflexive(hash, o);
    }
  }

  /** The loop's answer is the one peer that outranks every other. */
  lemma {:induction false} OwnerIsTop(hash: Name, peers: seq<Name>)
    requires peers != []
    ensures IsTop(hash, Elements(peers), OwnerOf(hash, peers))
  {
    hide PairHash.Score;
    if |peers| > 1 {
      var init, last := peers[..|peers| - 1], peers[|peers| - 1];
      OwnerIsTop(hash, init);
      var best := OwnerOf(hash, init);
      assert peers == init + [last];
      assert Elements(peers) == Elements(init) + {last};
      if last != best {
        BeatsTotal(hash, last, best);
      }
      forall q | q in Elements(init) && q != best && Beats(hash, last, best)
        ensures Beats(hash, last, q)
      {
        BeatsTransitive(hash, last, best, q);
      }
    }
  }

  /** The owner has the highest score, and the bytewise first name among those that share it. */
  lemma OwnerIsHighest(hash: Name, peers: seq<Name>, q: Name)
    requires q in peers
    ensures
      var o := OwnerOf(hash, peers);
      && o in peers && PairHash.Score(hash, q) <= PairHash.Score(hash, o)
      && (q != o && PairHash.Score(hash, q) == PairHash.Score(hash, o) ==> Precedes(o, q))
  {
    OwnerIsTop(hash, peers);
    LessIff(OwnerOf(hash, peers), q);
    assert q in Elements(peers);
  }

  /** A worker whose list has one peer, or none, owns every hash, whoever that peer is. */
  lemma SinglePeerOwnsAll(hash: Name, self: Name, peers: seq<Name>)
    ensures |peers| <= 1 ==> Owns(hash, self, peers)
    ensures |peers| > 1 ==> (Owns(hash, self, peers) <==> OwnerOf(hash, peers) == self)
  {}

  /** Ownership of a worker that is in its own view, without the loop. */
  lemma OwnsIff(hash: Name, self: Name, peers: seq<Name>)
    requires self in peers
    ensures Owns(hash, self, peers) <==> forall q :: q in peers && q != self ==> Beats(hash, self, q)
  {
    OwnerIsTop(hash, peers);
    if |peers| > 1 && (forall q :: q in peers && q != self ==> Beats(hash, self, q)) {
      assert IsTop(hash, Elements(peers), self);
      TopUnique(hash, Elements(peers), self, OwnerOf(hash, peers));
    }
  }

  // Minimal movement.

  /** The owner over a larger list still owns the hash over any part of it that keeps that owner. */
  lemma MinimalMovement(hash: Name, part: seq<Name>, whole: seq<Name>)
    requires part != [] && Elements(part) <= Elements(whole)
    requires OwnerOf(hash, whole) in part
    ensures OwnerOf(hash, part) == OwnerOf(hash, whole)
  {
    OwnerIsTop(hash, part);
    OwnerIsTop(hash, whole);
    TopUnique(hash, Elements(part), OwnerOf(hash, part), OwnerOf(hash, whole));
  }

  /** Order and repetition of the peer list do not matter. */
  lemma OwnerDependsOnSet(hash: Name, peers: seq<Name>, peers': seq<Name>)
    requires Elements(peers) == Elements(peers')
    ensures OwnerOf(hash, peers) == OwnerOf(hash, peers')
  {
    assert |peers'| > 0 ==> peers'[0] in Elements(peers');
    if peers == [] {
    } else {
      assert peers[0] in Elements(peers);
      OwnerIsTop(hash, peers);
      OwnerIsTop(hash, peers');
      TopUnique(hash, Elements(peers), OwnerOf(hash, peers), OwnerOf(hash, peers'));
    }
  }

  /** Adding a peer, at any place, moves hashes only onto it; read backwards, removing one moves only its own. */
  lemma AddingMovesOnlyToNew(hash: Name, peers: seq<Name>, more: seq<Name>, added: Name)
    requires peers != [] && Elements(more) == Elements(peers) + {added}
    ensures OwnerOf(hash, more) in {added, OwnerOf(hash, peers)}
  {
    assert added in Elements(more);
    OwnerIsTop(hash, more);
    if OwnerOf(hash, more) != added {
      assert OwnerOf(hash, more) in Elements(peers);
      MinimalMovement(hash, peers, more);
    }
  }

  // A fleet whose workers may disagree about the peer set.

  datatype Fleet = Fleet(running: set<Name>, views: map<Name, seq<Name>>)

  /** Every running worker has a view, and is in it. */
  ghost predicate SelfViewed(f: Fleet) {
    forall w :: w in f.running ==> w in f.views && w in f.views[w]
  }

  /** No view lists a peer that is not running. */
  ghost predicate OnlyRunningViewed(f: Fleet)
    requires SelfViewed(f)
  {
    forall w, q :: w in f.running && q in f.views[w] ==> q in f.running
  }

  ghost predicate Publishes(f: Fleet, hash: Name, w: Name)
    requires SelfViewed(f)
  {
    w in f.running && Owns(hash, w, f.views[w])
  }

  /** Some member of a non-empty set outranks the rest. */
  lemma {:induction false} TopExists(hash: Name, peers: set<Name>) returns (o: Name)
    requires peers != {}
    ensures IsTop(hash, peers, o)
    decreases |peers|
  {
    var p :| p in peers;
    if peers == {p} {
      o := p;
    } else {
      var rest := peers - {p};
      assert peers == rest + {p};
      var best := TopExists(hash, rest);
      BeatsTotal(hash, p, best);
      o := if Beats(hash, p, best) then p else best;
      forall q | q in rest && q != best && Beats(hash, p, best)
        ensures Beats(hash, p, q)
      {
        BeatsTransitive(hash, p, best, q);
      }
    }
  }

  /** Views of running peers only: the best running worker publishes, however the views differ. */
  lemma CoverageUnderDisagreement(f: Fleet, hash: Name) returns (w: Name)
    requires f.running != {} && SelfViewed(f) && OnlyRunningViewed(f)
    ensures IsTop(hash, f.running, w) && Publishes(f, hash, w)
  {
    w := TopExists(hash, f.running);
    OwnsIff(hash, w, f.views[w]);
  }

  /** Equal views, whoever they list: never two publishers. */
  lemma EqualViewsExclusive(f: Fleet, hash: Name, w: Name, w': Name)
    requires SelfViewed(f) && w in f.running && w' in f.running
    requires Elements(f.views[w]) == Elements(f.views[w'])
    requires Publishes(f, hash, w) && Publishes(f, hash, w')
    ensures w == w'
  {
    OwnsIff(hash, w, f.views[w]);
    OwnsIff(hash, w', f.views[w']);
    if w != w' {
      assert w' in Elements(f.views[w]) && w in Elements(f.views[w']);
      BeatsTransitive(hash, w, w', w);
      BeatsIrreflexive(hash, w);
    }
  }

  /** Every view is exactly the running set: one publisher, the top-scoring worker. */
  lemma ExactlyOnePublisher(f: Fleet, hash: Name, w: Name)
    requires f.running != {} && SelfViewed(f)
    requires forall v :: v in f.running ==> Elements(f.views[v]) == f.running
    ensures Publishes(f, hash, w) <==> IsTop(hash, f.running, w)
    ensures exists v :: Publishes(f, hash, v)
  {
    assert OnlyRunningViewed(f) by {
      forall v, q | v in f.running && q in f.views[v]
        ensures q in f.running
      {
        assert q in Elements(f.views[v]);
      }
    }
    var top := CoverageUnderDisagreement(f, hash);
    if Publishes(f, hash, w) {
      EqualViewsExclusive(f, hash, w, top);
    }
    if IsTop(hash, f.running, w) {
      TopUnique(hash, f.running, w, top);
    }
  }

  ghost predicate Stranded(f: Fleet, hash: Name)
    requires SelfViewed(f)
  {
    forall w :: !Publishes(f, hash, w)
  }

  /** A hash nobody publishes: the best running worker lists a peer that is not running and outranks it. */
  lemma StrandedNeedsGhost(f: Fleet, hash: Name, top: Name) returns (ghostPeer: Name)
    requires SelfViewed(f) && IsTop(hash, f.running, top) && Stranded(f, hash)
    ensures ghostPeer in f.views[top] && ghostPeer !in f.running && Beats(hash, ghostPeer, top)
  {
    assert !Publishes(f, hash, top);
    OwnerIsTop(hash, f.views[top]);
    ghostPeer := OwnerOf(hash, f.views[top]);
    if ghostPeer in f.running {
      BeatsTransitive(hash, top, ghostPeer, top);
      BeatsIrreflexive(hash, top);
    }
  }

  /** A hash is stranded exactly when every running worker is outranked by someone in its own view. */
  lemma StrandedExactly(f: Fleet, hash: Name)
    requires SelfViewed(f)
    ensures Stranded(f, hash) <==>
            forall w :: w in f.running ==> exists q :: q in f.views[w] && q != w && Beats(hash, q, w)
  {
    forall w | w in f.running
      ensures Publishes(f, hash, w) <==> !exists q :: q in f.views[w] && q != w && Beats(hash, q, w)
    {
      OwnsIff(hash, w, f.views[w]);
      forall q | q in f.views[w] && q != w
        ensures Beats(hash, w, q) <==> !Beats(hash, q, w)
      {
        BeatsTotal(hash, w, q);
        if Beats(hash, w, q) && Beats(hash, q, w) {
          BeatsTransitive(hash, w, q, w);
          BeatsIrreflexive(hash, w);
        }
      }
    }
  }

  /** One list of peers for the whole fleet, to which each worker adds itself. */
  ghost predicate SharedList(f: Fleet, list: set<Name>)
    requires SelfViewed(f)
  {
    forall w :: w in f.running ==> Elements(f.views[w]) == list + {w}
  }

  /**
   * With one shared list, what docs/ARCHITECTURE.md:279 says is exact: a hash is stranded if and only if the best of
   * the listed and the running is not running, and that peer is then in every view.
   */
  lemma StrandedUnderSharedList(f: Fleet, list: set<Name>, hash: Name, top: Name)
    requires SelfViewed(f) && SharedList(f, list) && IsTop(hash, list + f.running, top)
    ensures Stranded(f, hash) <==> top !in f.running
    ensures Stranded(f, hash) ==>
              forall w :: w in f.running ==> top in f.views[w] && OwnerOf(hash, f.views[w]) == top
    ensures !Stranded(f, hash) ==> Publishes(f, hash, top)
  {
    forall w | w in f.running
      ensures top !in f.running ==> top in f.views[w] && OwnerOf(hash, f.views[w]) == top && !Publishes(f, hash, w)
    {
      if top !in f.running {
        assert top in Elements(f.views[w]);
        OwnerIsTop(hash, f.views[w]);
        assert IsTop(hash, Elements(f.views[w]), top);
        TopUnique(hash, Elements(f.views[w]), OwnerOf(hash, f.views[w]), top);
        assert |f.views[w]| > 1 by {
          assert w in f.views[w] && w != top;
        }
      }
    }
    if top in f.running {
      forall q | q in f.views[top] && q != top
        ensures Beats(hash, top, q)
      {
        assert q in Elements(f.views[top]);
      }
      assert top in Elements(f.views[top]);
      OwnsIff(hash, top, f.views[top]);
      assert Publishes(f, hash, top);
    } else {
      assert forall w :: !Publishes(f, hash, w);
    }
  }

  /**
   * The documented condition itself, under one shared list: a stranded hash has a peer that is not running, is in every
   * view, and outranks every running worker; and such a peer strands the hash.
   */
  lemma StrandedIffListedGhost(f: Fleet, list: set<Name>, hash: Name)
    requires SelfViewed(f) && SharedList(f, list) && f.running != {}
    ensures Stranded(f, hash) <==>
            exists g :: g !in f.running
                        && (forall w :: w in f.running ==> g in f.views[w])
                        && forall w :: w in f.running ==> Beats(hash, g, w)
  {
    var top := TopExists(hash, list + f.running);
    StrandedUnderSharedList(f, list, hash, top);
    if top !in f.running {
      assert forall w :: w in f.running ==> top in f.views[w];
      assert forall w :: w in f.running ==> Beats(hash, top, w);
    } else if g :| g !in f.running && (forall w :: w in f.running ==> g in f.views[w])
                   && forall w :: w in f.running ==> Beats(hash, g, w) {
      assert g in Elements(f.views[top]);
      BeatsTransitive(hash, top, g, top);
      BeatsIrreflexive(hash, top);
    }
  }

  // A published claim about stranding that does not hold, on concrete names.

  const HASH_I: Name := [105]  // "i"
  const PEER_A: Name := [97]   // "a"
  const PEER_B: Name := [98]   // "b"
  const PEER_G: Name := [103]  // "g"

  lemma ScoreOfA()
    ensures PairHash.Score(HASH_I, PEER_A) == 0xc85e320f3ec1d1bf
  {}

  lemma ScoreOfB()
    ensures PairHash.Score(HASH_I, PEER_B) == 0x05197f577ed17f99
  {}

  lemma ScoreOfG()
    ensures PairHash.Score(HASH_I, PEER_G) == 0xf83697b734167f94
  {}

  lemma GhostFirst()
    ensures Beats(HASH_I, PEER_G, PEER_A) && Beats(HASH_I, PEER_A, PEER_B)
  {
    ScoreOfA();
    ScoreOfB();
    ScoreOfG();
  }

  lemma LosesToListed(w: Name, q: Name, view: seq<Name>)
    requires w in view && q in view && w != q && Beats(HASH_I, q, w)
    ensures !Owns(HASH_I, w, view)
  {
    OwnsIff(HASH_I, w, view);
    if Beats(HASH_I, w, q) {
      BeatsTransitive(HASH_I, w, q, w);
      BeatsIrreflexive(HASH_I, w);
    }
  }

  /**
   * docs/ARCHITECTURE.md:279 says a strand needs a peer that is in every view and not running. When the lists differ
   * that fails: here "a" and "b" run, "g" does not and is in one view only, and the hash is stranded.
   */
  lemma StrandedByOneView(f: Fleet)
    requires f.running == {PEER_A, PEER_B}
    requires f.views == map[PEER_A := [PEER_A, PEER_G], PEER_B := [PEER_A, PEER_B]]
    ensures SelfViewed(f) && Stranded(f, HASH_I)
    ensures PEER_G in f.views[PEER_A] && PEER_G !in f.views[PEER_B]
    ensures forall q :: q in f.views[PEER_A] && q in f.views[PEER_B] ==> q in f.running
  {
    hide PairHash.Score;
    assert f.views[PEER_A][0] == PEER_A && f.views[PEER_A][1] == PEER_G;
    assert f.views[PEER_B][0] == PEER_A && f.views[PEER_B][1] == PEER_B;
    LosesToListed(PEER_A, PEER_G, f.views[PEER_A]) by {
      GhostFirst();
    }
    LosesToListed(PEER_B, PEER_A, f.views[PEER_B]) by {
      GhostFirst();
    }
  }
}
