/** First-fit allocation of instance ids (include/erebus/system/util/thread_data.hxx). */
module InstanceIds {
  import opened Basics

  /** The ids in use, as the set of occupied slots. */
  ghost function Live(table: seq<bool>): set<nat> {
    set i: nat | i < |table| && table[i]
  }

  lemma {:induction false} LiveOfFullTable(table: seq<bool>)
    requires forall i | 0 <= i < |table| :: table[i]
    ensures |Live(table)| == |table|
  {
    assert Live(table) == Below(|table|);
  }

  lemma LiveFitsTable(table: seq<bool>)
    ensures |Live(table)| <= |table|
  {
    var rest := Below(|table|) - Live(table);
    assert Live(table) + rest == Below(|table|);
    assert |Live(table) + rest| == |Live(table)| + |rest|;
  }

  /** The shared table. `peak` is history: the largest number of instances that were alive at once. */
  class IdTable {
    var occupied: seq<bool>
    ghost var peak: nat

    ghost predicate Valid()
      reads this
    {
      |occupied| == peak && |Live(occupied)| <= peak
    }

    constructor ()
      ensures Valid() && occupied == [] && peak == 0
    {
      occupied, peak := [], 0;
    }

    /** Takes the least free id; the table grows only when every slot is taken, which is a new peak. */
    method AllocateInstanceId() returns (id: nat)
      requires Valid()
      modifies this
      ensures Valid()
      ensures id !in old(Live(occupied)) && forall j: nat | j < id :: j in old(Live(occupied))
      ensures Live(occupied) == old(Live(occupied)) + {id}
      ensures peak == if |Live(occupied)| > old(peak) then |Live(occupied)| else old(peak)
    {
      id := 0;
      LiveFitsTable(occupied);
      while true
        invariant id <= |occupied|
        invariant forall j | 0 <= j < id :: occupied[j]
        invariant occupied == old(occupied) && peak == old(peak)
        decreases |occupied| - id
      {
        if |occupied| < id + 1 {
          LiveOfFullTable(occupied);
          occupied := occupied + [false];
          occupied := occupied[id := true];
          peak := peak + 1;
          break;
        }
        if !occupied[id] {
          occupied := occupied[id := true];
          break;
        }
        id := id + 1;
      }
      assert Live(occupied) == old(Live(occupied)) + {id};
      LiveFitsTable(occupied);
    }

    method ReleaseInstanceId(id: nat)
      requires Valid() && id in Live(occupied)
      modifies this
      ensures Valid() && peak == old(peak)
      ensures Live(occupied) == old(Live(occupied)) - {id}
    {
      occupied := occupied[id := false];
      assert Live(occupied) == old(Live(occupied)) - {id};
    }
  }
}
