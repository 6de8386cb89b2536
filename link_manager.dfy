/** Link hand-out and deduplication over a link queue and a "garbage" seen-set.
    The queue is the in-memory queue of module Queue, whose `Out` stands for the
    `pop` the link manager calls; the garbage collaborator is modelled as a set. */
module Links {
  import opened Queue

  /** The seen-set of links already handed out: put, membership, size and clean. */
  class Garbage {
    var items: set<string>

    constructor ()
      ensures items == {}
    {
      items := {};
    }

    method Put(link: string)
      modifies this
      ensures items == old(items) + {link}
    {
      items := items + {link};
    }

    function IsIn(link: string): bool
      reads this
    {
      link in items
    }

    function Count(): nat
      reads this
    {
      |items|
    }

    method Clean()
      modifies this
      ensures items == {}
    {
      items := {};
    }
  }

  /** The garbage after a clean-up round: emptied once it holds `clearMax` links or
      more, and never emptied when the threshold is 0. */
  function Cleaned(items: set<string>, clearMax: int): set<string>
  {
    if clearMax != 0 && |items| >= clearMax then {} else items
  }

  /** The links of one batch that are worth queueing: those neither in the garbage
      nor in the queue, compared against the state before anything is pushed. */
  function NewLinks(links: seq<string>, garbage: set<string>, queue: seq<string>): seq<string>
  {
    Without(links, garbage + Elems(queue))
  }

  /** Queue and garbage after `saveLink` as written: its guard reads an unassigned
      variable, finds it empty and skips the whole body. */
  function SavedAsWritten(queue: seq<string>, garbage: set<string>, clearMax: int, links: seq<string>)
    : (seq<string>, set<string>)
  {
    (queue, garbage)
  }

  /** Queue and garbage after `saveLink` as its guard is evidently meant (on the batch):
      a non-empty batch first cleans the garbage, then queues its new links. */
  function Saved(queue: seq<string>, garbage: set<string>, clearMax: int, links: seq<string>)
    : (seq<string>, set<string>)
  {
    if links == [] then (queue, garbage)
    else
      var g := Cleaned(garbage, clearMax);
      (queue + NewLinks(links, g, queue), g)
  }

  /** The threshold 0 never clears; any other threshold clears exactly when it is reached. */
  lemma CleanedThreshold(items: set<string>, clearMax: int)
    ensures clearMax == 0 ==> Cleaned(items, clearMax) == items
    ensures clearMax != 0 && |items| >= clearMax ==> Cleaned(items, clearMax) == {}
    ensures |items| < clearMax ==> Cleaned(items, clearMax) == items
  {
  }

  /** A saved batch appends to the queue (existing links stay in place), and every
      appended link was in the batch, outside the cleaned garbage and not yet queued. */
  lemma {:induction false} SavedAppendsOnlyNewLinks(queue: seq<string>, garbage: set<string>, clearMax: int,
                                                   links: seq<string>, x: string)
    ensures Saved(queue, garbage, clearMax, links).0[..|queue|] == queue
    ensures x in Saved(queue, garbage, clearMax, links).0[|queue|..] <==>
              x in links && x !in Cleaned(garbage, clearMax) && x !in queue
  {
    var r := Saved(queue, garbage, clearMax, links).0;
    if links == [] {
      assert r[|queue|..] == [];
    } else {
      var g := Cleaned(garbage, clearMax);
      assert r[|queue|..] == NewLinks(links, g, queue);
      WithoutMembership(links, g + Elems(queue), x);
    }
  }

  /** Filtering looks only at the state before the push, so a link that is new and
      occurs twice in one batch is queued twice. */
  lemma BatchDuplicateQueuedTwice(queue: seq<string>, garbage: set<string>, clearMax: int, link: string)
    requires link !in Cleaned(garbage, clearMax) && link !in queue
    ensures Saved(queue, garbage, clearMax, [link, link]).0 == queue + [link, link]
  {
    WithoutNothingDropped([link, link], Cleaned(garbage, clearMax) + Elems(queue));
  }

  /** The guard as written discards every batch: as soon as one link of a batch is new,
      the intended save queues it while the written one leaves the queue as it was. */
  lemma {:induction false} SaveLinkAsWrittenLosesNewLinks(queue: seq<string>, garbage: set<string>,
                                                         clearMax: int, links: seq<string>, k: nat)
    requires k < |links| && links[k] !in Cleaned(garbage, clearMax) && links[k] !in queue
    ensures SavedAsWritten(queue, garbage, clearMax, links).0 == queue
    ensures |Saved(queue, garbage, clearMax, links).0| > |queue|
  {
    var g := Cleaned(garbage, clearMax);
    WithoutMembership(links, g + Elems(queue), links[k]);
  }

  /** The link manager: it owns references to its queue and garbage collaborators. */
  class LinkManager {
    const queue: MemoryQueue
    const garbage: Garbage
    const garbageClearMax: int

    constructor (queue: MemoryQueue, garbage: Garbage, garbageClearMax: int)
      ensures this.queue == queue && this.garbage == garbage
      ensures this.garbageClearMax == garbageClearMax
    {
      this.queue := queue;
      this.garbage := garbage;
      this.garbageClearMax := garbageClearMax;
    }

    /** Hands out the front link and remembers it in the garbage; an empty queue
        yields '' and nothing changes. */
    method GetLink() returns (link: string)
      modifies queue, garbage
      ensures old(queue.queue) != [] ==>
                link == old(queue.queue)[0] && queue.queue == old(queue.queue)[1..] &&
                garbage.items == old(garbage.items) + {link}
      ensures old(queue.queue) == [] ==>
                link == "" && queue.queue == [] && garbage.items == old(garbage.items)
    {
      if !queue.IsEmpty() {
        link := queue.Out();
        garbage.Put(link);
      } else {
        link := "";
      }
    }

    /** `saveLink` as written: the guard tests a variable that is not assigned yet,
        so the body never runs and neither collaborator changes. */
    method SaveLink(links: seq<string>)
      ensures (queue.queue, garbage.items) ==
              SavedAsWritten(old(queue.queue), old(garbage.items), garbageClearMax, links)
    {
    }

    /** `saveLink` with its guard on the batch: clean the garbage, drop every link found
        in the garbage or already queued, and push the rest in their original order. */
    method SaveLinkIntended(links: seq<string>)
      modifies queue, garbage
      ensures (queue.queue, garbage.items) ==
              Saved(old(queue.queue), old(garbage.items), garbageClearMax, links)
    {
      if links != [] {
        CleanGarbage();
        var kept := [];
        for i := 0 to |links|
          invariant kept == NewLinks(links[..i], garbage.items, queue.queue)
          invariant garbage.items == Cleaned(old(garbage.items), garbageClearMax)
          invariant queue.queue == old(queue.queue)
        {
          assert links[..i + 1][..i] == links[..i];
          var link := links[i];
          var drop := false;
          if garbage.IsIn(link) {
            drop := true;
          }
          if queue.Has(link) {
            drop := true;
          }
          if !drop {
            kept := kept + [link];
          }
        }
        assert links[..|links|] == links;
        queue.Push(kept);
      }
    }

    /** Empties the garbage once its size reaches a non-zero threshold. */
    method CleanGarbage()
      modifies garbage
      ensures garbage.items == Cleaned(old(garbage.items), garbageClearMax)
    {
      if garbageClearMax != 0 && garbage.Count() >= garbageClearMax {
        garbage.Clean();
      }
    }
  }
}
