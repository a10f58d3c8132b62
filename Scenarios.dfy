/**
 * Runs of several nodes that exchange their datagrams, written on the tables: a node's
 * own join appends its entry (`Server.JoinGroup`), and every received datagram goes
 * through `Apply`, as `Server.HandleMessage` does once it has decoded it. Multicast
 * delivers each datagram to every node whose socket is open, the sender included.
 */
module Scenarios {
  import opened MembershipTable
  import opened Codec
  import opened Node

  /*
   * Nodes 1 (priority 5), 2 (priority 9) and 3 (priority 1) join one after the other:
   * node 1 joins alone and hears its own JOIN; node 2 joins, and node 1 answers its JOIN
   * with WELCOME, heard by both; node 3 joins, and nodes 1 and 2 answer with WELCOME,
   * heard by all three. The three lemmas below follow one node each: every node ends
   * with the same three entries, each in its own insertion order, and with master 2.
   */

  lemma ThreeNodesJoinSeenBy1()
    ensures
      var t := Apply(Apply([(1, 5)], Join(1, 5), 1), Join(2, 9), 1);
      var t' := Apply(Apply(Apply(Apply(t, Welcome(1, 5), 1), Join(3, 1), 1), Welcome(1, 5), 1), Welcome(2, 9), 1);
      t' == [(1, 5), (2, 9), (3, 1)] && Master(t', 1) == 2
  {
    var t := [(1, 5), (2, 9)];
    assert Apply(Apply([(1, 5)], Join(1, 5), 1), Join(2, 9), 1) == t by {
      UpsertAbsent([(1, 5)], 2, 9);
    }
    assert Apply(t, Welcome(1, 5), 1) == t by {
      UpsertPresent(t, 0, 5);
    }
    var t' := [(1, 5), (2, 9), (3, 1)];
    assert Apply(t, Join(3, 1), 1) == t' by {
      UpsertAbsent(t, 3, 1);
    }
    assert Apply(t', Welcome(1, 5), 1) == t' by {
      UpsertPresent(t', 0, 5);
    }
    assert Apply(t', Welcome(2, 9), 1) == t' by {
      UpsertPresent(t', 1, 9);
    }
    MasterOfUniqueMax(t', 1, 1);
  }

  lemma ThreeNodesJoinSeenBy2()
    ensures
      var t := Apply(Apply([(2, 9)], Join(2, 9), 2), Welcome(1, 5), 2);
      var t' := Apply(Apply(Apply(t, Join(3, 1), 2), Welcome(1, 5), 2), Welcome(2, 9), 2);
      t' == [(2, 9), (1, 5), (3, 1)] && Master(t', 2) == 2
  {
    var t := [(2, 9), (1, 5)];
    assert Apply(Apply([(2, 9)], Join(2, 9), 2), Welcome(1, 5), 2) == t by {
      UpsertAbsent([(2, 9)], 1, 5);
    }
    var t' := [(2, 9), (1, 5), (3, 1)];
    assert Apply(t, Join(3, 1), 2) == t' by {
      UpsertAbsent(t, 3, 1);
    }
    assert Apply(t', Welcome(1, 5), 2) == t' by {
      UpsertPresent(t', 1, 5);
    }
    assert Apply(t', Welcome(2, 9), 2) == t' by {
      UpsertPresent(t', 0, 9);
    }
    MasterOfUniqueMax(t', 2, 0);
  }

  lemma ThreeNodesJoinSeenBy3()
    ensures
      var t' := Apply(Apply(Apply([(3, 1)], Join(3, 1), 3), Welcome(1, 5), 3), Welcome(2, 9), 3);
      t' == [(3, 1), (1, 5), (2, 9)] && Master(t', 3) == 2
  {
    assert Apply(Apply([(3, 1)], Join(3, 1), 3), Welcome(1, 5), 3) == [(3, 1), (1, 5)] by {
      UpsertAbsent([(3, 1)], 1, 5);
    }
    var t' := [(3, 1), (1, 5), (2, 9)];
    assert Apply([(3, 1), (1, 5)], Welcome(2, 9), 3) == t' by {
      UpsertAbsent([(3, 1), (1, 5)], 2, 9);
    }
    MasterOfUniqueMax(t', 3, 2);
  }

  /**
   * Nodes 1 and 2 share priority 5 and join in that order. Each node put its own entry
   * first, so each elects itself: the tie-break follows each node's local insertion
   * order, and the two peers disagree on the master.
   */
  lemma EqualPrioritiesDisagree()
    ensures
      var t1 := Apply(Apply([(1, 5)], Join(2, 5), 1), Welcome(1, 5), 1);
      var t2 := Apply(Apply([(2, 5)], Join(2, 5), 2), Welcome(1, 5), 2);
      t1 == [(1, 5), (2, 5)] && t2 == [(2, 5), (1, 5)] && Master(t1, 1) == 1 && Master(t2, 2) == 2
  {
    UpsertAbsent([(1, 5)], 2, 5);
    UpsertPresent([(1, 5), (2, 5)], 0, 5);
    UpsertAbsent([(2, 5)], 1, 5);
    assert IsFirstMax([(1, 5), (2, 5)], 0) && IsFirstMax([(2, 5), (1, 5)], 0);
  }
}
