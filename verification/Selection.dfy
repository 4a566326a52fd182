/**
 Which events a size-limited store should keep: the newest `q` of each pubkey, and of those the
 newest `n` overall.  The definition counts newer events and mentions no insertion order; the
 lemmas show that it is a path-independent choice, so that it can be maintained one event at a time.
 */
module Selection {
  import opened Events

  function Above(xs: set<Event>, x: Event): set<Event> {
    set y | y in xs && Newer(y, x)
  }

  function Top(n: nat, xs: set<Event>): set<Event> {
    set x | x in xs && |Above(xs, x)| < n
  }

  function OfPubkey(xs: set<Event>, p: nat): set<Event> {
    set x | x in xs && x.pubkey == p
  }

  function QuotaSelect(q: nat, xs: set<Event>): set<Event> {
    set x | x in xs && |Above(OfPubkey(xs, x.pubkey), x)| < q
  }

  function Bounded(q: nat, n: nat, xs: set<Event>): set<Event> {
    Top(n, QuotaSelect(q, xs))
  }

  /** The quota applied to one pubkey only, which is what one insertion does. */
  function QuotaFor(q: nat, p: nat, xs: set<Event>): set<Event> {
    set x | x in xs && (x.pubkey == p ==> x in Top(q, OfPubkey(xs, p)))
  }

  // ---- Ranks --------------------------------------------------------------------------------

  lemma RankStrict(xs: set<Event>, a: Event, b: Event)
    requires a in xs && Newer(a, b)
    ensures |Above(xs, a)| < |Above(xs, b)|
  {
    SubsetSize(Above(xs, a) + {a}, Above(xs, b));
  }

  lemma RankMonotone(xs: set<Event>, ys: set<Event>, x: Event)
    requires Above(xs, x) <= Above(ys, x)
    ensures |Above(xs, x)| <= |Above(ys, x)|
  {
    SubsetSize(Above(xs, x), Above(ys, x));
  }

  lemma TopOfFew(n: nat, xs: set<Event>)
    requires |xs| <= n
    ensures Top(n, xs) == xs
  {
    forall x | x in xs ensures |Above(xs, x)| < n {
      SubsetSize(Above(xs, x) + {x}, xs);
    }
  }

  lemma TopWithoutOldest(n: nat, xs: set<Event>, v: Event)
    requires UniqueIds(xs) && v in xs && n < |xs|
    requires forall x :: x in xs ==> !Newer(v, x)
    ensures Top(n, xs - {v}) == Top(n, xs)
  {
    forall x | x in xs && x != v ensures Above(xs - {v}, x) == Above(xs, x) {}
    assert Above(xs, v) == xs - {v};
  }

  // ---- Heritage: whoever is kept among more events is kept among fewer -----------------------

  /** At most one event of `w` loses its quota place to a newcomer. */
  lemma AtMostOneDisplaced(q: nat, w: set<Event>, e: Event, y: Event, z: Event)
    requires UniqueIds(w + {e}) && e !in w
    requires y in QuotaSelect(q, w) && y !in QuotaSelect(q, w + {e})
    requires z in QuotaSelect(q, w) && z !in QuotaSelect(q, w + {e})
    ensures y == z
    ensures Newer(e, z) && e.pubkey == z.pubkey && e in QuotaSelect(q, w + {e})
  {
    var p := e.pubkey;
    DisplacedRank(q, w, e, y);
    DisplacedRank(q, w, e, z);
    if Newer(y, z) {
      RankStrict(OfPubkey(w, p), y, z);
    } else if Newer(z, y) {
      RankStrict(OfPubkey(w, p), z, y);
    }
    var wp := OfPubkey(w, p);
    assert Above(OfPubkey(w + {e}, p), e) <= Above(wp, z);
    SubsetSize(Above(OfPubkey(w + {e}, p), e), Above(wp, z));
  }

  lemma DisplacedRank(q: nat, w: set<Event>, e: Event, z: Event)
    requires e !in w
    requires z in QuotaSelect(q, w) && z !in QuotaSelect(q, w + {e})
    ensures z.pubkey == e.pubkey && Newer(e, z)
    ensures |Above(OfPubkey(w, e.pubkey), z)| == q - 1
  {
    var before := Above(OfPubkey(w, z.pubkey), z);
    var after := Above(OfPubkey(w + {e}, z.pubkey), z);
    assert after == if z.pubkey == e.pubkey && Newer(e, z) then before + {e} else before;
  }

  lemma Heritage(q: nat, n: nat, w: set<Event>, e: Event, x: Event)
    requires UniqueIds(w + {e}) && x in w
    requires x in Bounded(q, n, w + {e})
    ensures x in Bounded(q, n, w)
  {
    if e in w {
      assert w + {e} == w;
      return;
    }
    var u, u' := QuotaSelect(q, w), QuotaSelect(q, w + {e});
    RankMonotone(OfPubkey(w, x.pubkey), OfPubkey(w + {e}, x.pubkey), x);
    assert x in u;
    var lost := Above(u, x) - u';
    if lost == {} {
      RankMonotone(u, u', x);
    } else {
      var z :| z in lost;
      AtMostOneDisplaced(q, w, e, z, z);
      assert Above(u, x) - {z} + {e} <= Above(u', x) by {
        forall y | y in Above(u, x) && y != z ensures y in u' {
          if y !in u' {
            AtMostOneDisplaced(q, w, e, y, z);
          }
        }
      }
      SubsetSize(Above(u, x) - {z} + {e}, Above(u', x));
    }
  }

  // ---- Outcast: dropping an event that is not kept changes nothing ---------------------------

  lemma NewerUnaffected(q: nat, w: set<Event>, v: Event, x: Event)
    requires x in w && x != v && !Newer(v, x)
    ensures x in QuotaSelect(q, w) <==> x in QuotaSelect(q, w - {v})
  {
    assert Above(OfPubkey(w - {v}, x.pubkey), x) == Above(OfPubkey(w, x.pubkey), x);
  }

  lemma OutcastByQuota(q: nat, w: set<Event>, v: Event, x: Event)
    requires v in w && v !in QuotaSelect(q, w)
    requires x in w && x != v
    ensures x in QuotaSelect(q, w) <==> x in QuotaSelect(q, w - {v})
  {
    if !Newer(v, x) {
      NewerUnaffected(q, w, v, x);
    } else if x.pubkey == v.pubkey {
      var wp := OfPubkey(w, v.pubkey);
      RankStrict(wp, v, x);
      assert Above(OfPubkey(w - {v}, x.pubkey), x) == Above(wp, x) - {v};
    } else {
      assert OfPubkey(w - {v}, x.pubkey) == OfPubkey(w, x.pubkey);
    }
  }

  lemma Outcast(q: nat, n: nat, w: set<Event>, v: Event)
    requires UniqueIds(w) && v in w && v !in Bounded(q, n, w)
    ensures Bounded(q, n, w - {v}) == Bounded(q, n, w)
  {
    var u, u' := QuotaSelect(q, w), QuotaSelect(q, w - {v});
    if v !in u {
      forall x | x in w && x != v ensures x in u <==> x in u' { OutcastByQuota(q, w, v, x); }
      assert u == u';
      return;
    }
    assert Above(u', v) == Above(u, v) by {
      forall y | y in w && Newer(y, v) ensures y in u <==> y in u' { NewerUnaffected(q, w, v, y); }
    }
    forall x | x in w && x != v ensures x in Top(n, u) <==> x in Top(n, u') {
      if Newer(x, v) {
        NewerUnaffected(q, w, v, x);
        forall y | y in w && Newer(y, x) ensures y in u <==> y in u' { NewerUnaffected(q, w, v, y); }
        assert Above(u, x) == Above(u', x);
      } else {
        SubsetSize(Above(u, v), Above(u, x));
        SubsetSize(Above(u', v), Above(u', x));
      }
    }
  }

  lemma OutcastAll(q: nat, n: nat, w: set<Event>, kept: set<Event>)
    requires UniqueIds(w) && Bounded(q, n, w) <= kept <= w
    ensures Bounded(q, n, kept) == Bounded(q, n, w)
    decreases |w|
  {
    if kept != w {
      var v :| v in w && v !in kept;
      Outcast(q, n, w, v);
      OutcastAll(q, n, w - {v}, kept);
    }
  }

  /** The choice from everything is the choice from what was kept plus the newcomer. */
  lemma PathIndependence(q: nat, n: nat, w: set<Event>, e: Event)
    requires UniqueIds(w + {e})
    ensures Bounded(q, n, Bounded(q, n, w) + {e}) == Bounded(q, n, w + {e})
  {
    forall x | x in Bounded(q, n, w + {e}) && x != e ensures x in Bounded(q, n, w) {
      Heritage(q, n, w, e, x);
    }
    OutcastAll(q, n, w + {e}, Bounded(q, n, w) + {e});
  }

  /** Among events already within every quota, only the newcomer's pubkey can be over it. */
  lemma OneQuotaIsEnough(q: nat, n: nat, w: set<Event>, e: Event)
    ensures QuotaFor(q, e.pubkey, Bounded(q, n, w) + {e}) == QuotaSelect(q, Bounded(q, n, w) + {e})
  {
    var s := Bounded(q, n, w);
    forall x | x in s + {e}
      ensures x in QuotaFor(q, e.pubkey, s + {e}) <==> x in QuotaSelect(q, s + {e})
    {
      if x.pubkey != e.pubkey {
        RankMonotone(OfPubkey(s + {e}, x.pubkey), OfPubkey(w, x.pubkey), x);
      }
    }
  }

  /** Replacing a kept event by a newer one of the same pubkey keeps the newcomer in its place. */
  lemma ReplaceKept(q: nat, n: nat, w: set<Event>, prev: Event, e: Event)
    requires UniqueIds(w + {e}) && e !in w
    requires prev in Bounded(q, n, w) && e.pubkey == prev.pubkey && Newer(e, prev)
    ensures Bounded(q, n, w - {prev} + {e}) == Bounded(q, n, w) - {prev} + {e}
  {
    var u, u' := QuotaSelect(q, w), QuotaSelect(q, w - {prev} + {e});
    assert u' == u - {prev} + {e} by {
      forall x | x in w - {prev} + {e} ensures x in u' <==> x in u || x == e {
        ReplacedInQuota(q, w, prev, e, x);
      }
    }
    ReplaceInTop(n, u, prev, e);
  }

  lemma ReplacedInQuota(q: nat, w: set<Event>, prev: Event, e: Event, x: Event)
    requires UniqueIds(w + {e}) && e !in w
    requires prev in QuotaSelect(q, w) && e.pubkey == prev.pubkey && Newer(e, prev)
    requires x in w - {prev} + {e}
    ensures x in QuotaSelect(q, w - {prev} + {e}) <==> x in QuotaSelect(q, w) || x == e
  {
    var p, wp := x.pubkey, OfPubkey(w, x.pubkey);
    if p == e.pubkey {
      assert OfPubkey(w - {prev} + {e}, p) == wp - {prev} + {e};
      ReplacedRank(wp, prev, e, x, q);
    } else {
      assert OfPubkey(w - {prev} + {e}, p) == wp;
    }
  }

  lemma ReplaceInTop(n: nat, u: set<Event>, prev: Event, e: Event)
    requires UniqueIds(u + {e}) && e !in u && prev in Top(n, u) && Newer(e, prev)
    ensures Top(n, u - {prev} + {e}) == Top(n, u) - {prev} + {e}
  {
    forall x | x in u - {prev} + {e}
      ensures x in Top(n, u - {prev} + {e}) <==> x in Top(n, u) || x == e
    {
      ReplacedRank(u, prev, e, x, n);
    }
  }

  lemma ReplacedRank(s: set<Event>, prev: Event, e: Event, x: Event, limit: nat)
    requires UniqueIds(s) && e !in s && prev in s && Newer(e, prev) && |Above(s, prev)| < limit
    requires x in s - {prev} + {e}
    ensures |Above(s - {prev} + {e}, x)| < limit <==> x == e || |Above(s, x)| < limit
  {
    var before, after := Above(s, x), Above(s - {prev} + {e}, x);
    if x == e {
      SubsetSize(after, Above(s, prev));
    } else if Newer(prev, x) {
      SwapSize(before, prev, e);
      assert after == before - {prev} + {e};
    } else {
      RankStrict(s, x, prev);
      SubsetSize(before, after);
      SubsetSize(after, before + {e});
    }
  }

  lemma SwapSize<T>(s: set<T>, a: T, b: T)
    requires a in s && b !in s
    ensures |s - {a} + {b}| == |s|
  {
  }
}
