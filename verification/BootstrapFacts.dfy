/**
 States without a bootstrap, and states in which a bootstrap goes on quietly, operation by operation.

 Quiet is a state in which every management server has failed and no registration is under way. Both kinds of
 state are kept by sending, by replies and by whatever begins no transaction of the other kind; how many
 registrations were sent is counted along.
 */
module BootstrapFacts {
  import opened Core
  import opened Client
  import opened ClientFacts
  import opened ManagementFacts
  import opened Induction
  import SortedList

  /** A bootstrap is neither under way nor asked for. */
  predicate NoBootstrap(s: State) {
    s.bsState in {NotBootstrapped, Bootstrapped} && Count(s.transactions, AnyOf(Bootstrap)) == 0
  }

  /** A failed bootstrap that left no server to try again with. */
  predicate Dead(s: State) { s.bsState == Failed && Count(s.transactions, AnyOf(Bootstrap)) == 0 }

  /** Every management server has failed, no registration is under way and n registrations were sent so far. */
  predicate Quiet(s: State, n: nat) {
    && AllFailed(s.servers) && Count(s.transactions, AnyOf(Register)) == 0
    && (s.bsServers != [] || Dead(s)) && Tally(s.log, RegisterSent) == n
  }

  /** Both kinds of state are kept. */
  predicate Keeps(s: State, r: State, n: nat) {
    (NoBootstrap(s) ==> NoBootstrap(r)) && (Quiet(s, n) ==> Quiet(r, n))
  }

  lemma Goes(a: State, b: State, c: State, n: nat)
    requires Keeps(a, b, n) && Keeps(b, c, n)
    ensures Keeps(a, c, n)
  {
  }

  lemma SilentTally(log: seq<Output>, o: Output)
    requires !(o.Sent? && o.kind == Register)
    ensures Tally(log + [o], RegisterSent) == Tally(log, RegisterSent)
  {
    TallyOne(log, o, RegisterSent);
  }

  /** No reply changes a server that has failed. */
  lemma FailedStay(s: State, t: Transaction, reply: Option<Message>, now: int)
    requires AllFailed(s.servers)
    ensures Handle(s, t, reply, now).servers == s.servers
  {
  }

  lemma FinishKeeps(s: State, j: nat, reply: Option<Message>, now: int, n: nat)
    requires j < |s.transactions|
    ensures Keeps(s, Finish(s, j, reply, now), n)
  {
    hide Handle, Count, Tally, AllFailed;
    var t := s.transactions[j];
    HandleFrame(s, t, reply, now);
    CountWithout(s.transactions, j, AnyOf(Bootstrap));
    CountWithout(s.transactions, j, AnyOf(Register));
    SilentTally(s.log, Ending(s, t, reply));
    if AllFailed(s.servers) {
      FailedStay(s, t, reply, now);
    }
  }

  lemma ReplaceKeeps(s: State, j: nat, t: Transaction, n: nat)
    requires j < |s.transactions| && t.kind == s.transactions[j].kind
    ensures Keeps(s, s.(transactions := s.transactions[j := t]), n)
  {
    CountReplace(s.transactions, j, t, AnyOf(Bootstrap));
    CountReplace(s.transactions, j, t, AnyOf(Register));
  }

  lemma LogKeeps(s: State, o: Output, n: nat)
    requires !(o.Sent? && o.kind == Register) || Count(s.transactions, AnyOf(Register)) > 0
    ensures Keeps(s, Log(s, o), n)
  {
    TallyOne(s.log, o, RegisterSent);
  }

  lemma SendKeeps(s: State, j: nat, now: int, n: nat)
    requires j < |s.transactions|
    ensures Keeps(s, Send(s, j, now).0, n)
  {
    hide Count, Finish, Send, Keeps;
    SendFrame(s, j, now);
    var (t, sent, over) := Transmit(s.transactions[j], now);
    var s1 := s.(transactions := s.transactions[j := t]);
    ReplaceKeeps(s, j, t, n);
    Steady(s1, n);
    var s2 := if sent then Log(s1, Sending(s, t, now)) else s1;
    if sent {
      CountMember(s1.transactions, AnyOf(Register));
      assert Picks(AnyOf(Register), s1.transactions[j]) <==> t.kind == Register;
      LogKeeps(s1, Sending(s, t, now), n);
    }
    Goes(s, s1, s2, n);
    if over {
      FinishKeeps(s2, j, None, now, n);
      Goes(s, s2, Send(s, j, now).0, n);
    }
  }

  lemma Steady(s: State, n: nat)
    ensures Keeps(s, s, n)
  {
  }

  /** Another transaction than a registration does not disturb the quiet, and another than a bootstrap
      request starts no bootstrap. */
  lemma BeginKeeps(s: State, kind: Kind, peer: Peer, now: int, n: nat)
    ensures kind != Bootstrap && NoBootstrap(s) ==> NoBootstrap(Begin(s, kind, peer, now).0)
    ensures kind != Register && s.bsServers != [] && Quiet(s, n) ==> Quiet(Begin(s, kind, peer, now).0, n)
  {
    hide Count, Send;
    var t := NewTransaction(s, kind, peer, now);
    var s1 := s.(transactions := SortedList.Insert(s.transactions, t, Mid),
                 nextMID := (s.nextMID + 1) % 0x1_0000, drawn := s.drawn + 1, created := s.created + 1);
    CountInsert(s.transactions, t, AnyOf(Bootstrap));
    CountInsert(s.transactions, t, AnyOf(Register));
    SendKeeps(s1, SortedList.Position(s.transactions, t, Mid), now, n);
  }

  lemma ManagesKeep(s: State, r: State, n: nat)
    requires OnlyManages(s, r)
    ensures Keeps(s, r, n)
  {
    hide Count;
    assert r.log == s.log + r.log[|s.log|..];
    TallyAppend(s.log, r.log[|s.log|..], RegisterSent);
    TallySilent(r.log[|s.log|..], RegisterSent);
  }

  /** Transactions and requests keep both kinds of state. */
  lemma RepliesKeep(from: State, n: nat, inv: Property)
    requires forall s: State :: inv(s) <==> Keeps(from, s, n)
    ensures KeptBySend(inv) && KeptByReply(inv) && KeptByRequests(inv)
  {
    hide Keeps, Send, Finish, OnlyManages;
    forall s: State, i: nat, now: int | i < |s.transactions| && inv(s) ensures inv(Send(s, i, now).0) {
      SendKeeps(s, i, now, n);
      Goes(from, s, Send(s, i, now).0, n);
    }
    forall s: State, i: nat, acked: bool, time: int | i < |s.transactions| && inv(s)
      ensures inv(Touch(s, i, acked, time))
    {
      ReplaceKeeps(s, i, Touch(s, i, acked, time).transactions[i], n);
      Goes(from, s, Touch(s, i, acked, time), n);
    }
    forall s: State, i: nat, reply: Option<Message>, now: int | i < |s.transactions| && inv(s)
      ensures inv(Finish(s, i, reply, now))
    {
      FinishKeeps(s, i, reply, now, n);
      Goes(from, s, Finish(s, i, reply, now), n);
    }
    forall a: State, b: State | inv(a) && OnlyManages(a, b) ensures inv(b) {
      ManagesKeep(a, b, n);
      Goes(from, a, b, n);
    }
    ManagesIsEnough(inv);
  }

  lemma StepTransactionsKeepBoth(s: State, now: int, n: nat)
    ensures Keeps(s, StepTransactions(s, 0, now), n)
  {
    hide Keeps, StepTransactions;
    var inv := (r: State) => Keeps(s, r, n);
    RepliesKeep(s, n, inv);
    Steady(s, n);
    StepTransactionsKeep(inv, s, 0, now);
  }
}
