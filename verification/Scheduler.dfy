/** Weighted link selection (aetherbond/client/scheduler.py), over real numbers; the random draw is
    a parameter. */
module Scheduler {
  import opened Wrappers

  datatype Link = Link(ip: string, isOnline: bool, score: real)

  predicate Usable(l: Link) {
    l.isOnline && l.score > 0.0
  }

  function Active(links: seq<Link>): seq<Link> {
    if links == [] then []
    else Active(links[..|links| - 1]) + (if Usable(links[|links| - 1]) then [links[|links| - 1]] else [])
  }

  /** The sum of the first k scores. */
  function Cumulative(links: seq<Link>, k: nat): real
    requires k <= |links|
  {
    if k == 0 then 0.0 else Cumulative(links, k - 1) + links[k - 1].score
  }

  function Total(links: seq<Link>): real {
    Cumulative(links, |links|)
  }

  method GetActiveLinks(links: seq<Link>) returns (active: seq<Link>)
    ensures active == Active(links)
  {
    active := [];
    for i := 0 to |links|
      invariant active == Active(links[..i])
    {
      assert links[..i + 1][..i] == links[..i];
      if Usable(links[i]) {
        active := active + [links[i]];
      }
    }
    assert links[..|links|] == links;
  }

  /** Link i of the active ones is the one to pick for draw r: r lies above the scores before it
      and not above them plus its own; a draw of 0 goes to the first. */
  ghost predicate Picks(active: seq<Link>, r: real, i: nat) {
    i < |active| && (i == 0 || Cumulative(active, i) < r) && r <= Cumulative(active, i + 1)
  }

  /** None is the ConnectionError for no active link.  The uniform fallback for a zero total and the
      trailing fallback behind the loop are never reached. */
  method SelectInterfaceWrr(links: seq<Link>, r: real) returns (ip: Option<string>)
    requires Active(links) != [] ==> 0.0 <= r <= Total(Active(links))
    ensures ip.None? <==> Active(links) == []
    ensures ip.Some? ==> exists i: nat :: Picks(Active(links), r, i) && ip.value == Active(links)[i].ip
  {
    ip := None;
    var active := GetActiveLinks(links);
    if active == [] {
      return;
    }
    AllUsable(links);
    var total := 0.0;
    for i := 0 to |active|
      invariant total == Cumulative(active, i)
    {
      total := total + active[i].score;
    }
    CumulativeGrows(active, 0, |active|);
    if total <= 0.0 {
      assert false;
    }
    var cumulative := 0.0;
    for i := 0 to |active|
      invariant cumulative == Cumulative(active, i)
      invariant i == 0 || cumulative < r
    {
      cumulative := cumulative + active[i].score;
      if r <= cumulative {
        assert Picks(active, r, i);
        return Some(active[i].ip);
      }
    }
    assert false;
  }

  /** Filtering keeps order and multiplicity: a link counts as often as it stands in the list, where it
      stands, if it is online with a positive score, and not at all otherwise. */
  lemma {:induction false} ActiveOfConcat(first: seq<Link>, second: seq<Link>, link: Link)
    ensures Active(first + second) == Active(first) + Active(second)
    ensures Active([link]) == if link.isOnline && link.score > 0.0 then [link] else []
    decreases |second|
  {
    assert [link][..0] == [];
    if second == [] {
      assert first + second == first;
    } else {
      var front, last := second[..|second| - 1], second[|second| - 1];
      assert (first + second)[..|first + second| - 1] == first + front;
      ActiveOfConcat(first, front, link);
    }
  }

  lemma {:induction false} AllUsable(links: seq<Link>)
    ensures forall i :: 0 <= i < |Active(links)| ==> Usable(Active(links)[i]) && Active(links)[i] in links
    ensures forall l :: l in links && Usable(l) ==> l in Active(links)
    decreases |links|
  {
    if links != [] {
      var rest := links[..|links| - 1];
      AllUsable(rest);
      assert links == rest + [links[|links| - 1]];
    }
  }

  lemma {:induction false} CumulativeGrows(active: seq<Link>, i: nat, j: nat)
    requires i <= j <= |active| && forall k :: 0 <= k < |active| ==> Usable(active[k])
    ensures i < j ==> Cumulative(active, i) < Cumulative(active, j)
    decreases j
  {
    if i < j {
      CumulativeGrows(active, i, j - 1);
    }
  }

  lemma {:induction false} SomeLinkIsPicked(active: seq<Link>, r: real, n: nat) returns (i: nat)
    requires 0 < n <= |active| && 0.0 <= r <= Cumulative(active, n)
    ensures i < n && Picks(active, r, i)
    decreases n
  {
    if n == 1 || Cumulative(active, n - 1) < r {
      i := n - 1;
    } else {
      i := SomeLinkIsPicked(active, r, n - 1);
    }
  }

  /** The regions of the active links partition the range of draws, one half-open interval per link
      and each as wide as the link's score: every draw picks exactly one link, and it is online. */
  lemma {:induction false} RegionsPartitionDraws(links: seq<Link>, r: real)
    requires Active(links) != [] && 0.0 <= r <= Total(Active(links))
    ensures var active := Active(links);
      && (exists i: nat :: Picks(active, r, i))
      && (forall i: nat, j: nat :: Picks(active, r, i) && Picks(active, r, j) ==> i == j)
      && (forall i: nat :: Picks(active, r, i) ==> Usable(active[i]) && active[i] in links)
      && (r > 0.0 ==> forall i: nat :: Picks(active, r, i) <==>
            i < |active| && Cumulative(active, i) < r <= Cumulative(active, i) + active[i].score)
  {
    var active := Active(links);
    AllUsable(links);
    var k := SomeLinkIsPicked(active, r, |active|);
    forall i: nat, j: nat | Picks(active, r, i) && Picks(active, r, j)
      ensures i == j
    {
      if i < j {
        CumulativeGrows(active, i + 1, j);
      } else if j < i {
        CumulativeGrows(active, j + 1, i);
      }
    }
  }
}
