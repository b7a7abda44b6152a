/** The canonical state delta: per-account balance and storage changes, in canonical order. */
module StateDelta {
  import opened StringOrder
  import opened LowerCase
  import opened Trace

  datatype BalanceChange = BalanceChange(address: string, before: nat, after: nat)
  datatype StorageChange = StorageChange(address: string, slot: string, before: nat, after: nat)

  datatype Balance = Balance(before: nat, after: nat, delta: int)
  datatype Slot = Slot(slot: string, before: nat, after: nat, delta: int)
  datatype Account = Account(address: string, balance: Option<Balance>, storage: seq<Slot>)

  // ---------------------------------------------------------------------------------------------
  // What the delta says about each account
  // ---------------------------------------------------------------------------------------------

  /** The last balance change of an address wins. */
  function BalanceOf(bs: seq<BalanceChange>, a: string): Option<Balance> {
    if bs == [] then None
    else
      var b := bs[|bs| - 1];
      if Lower(b.address) == a then Some(Balance(b.before, b.after, b.after - b.before)) else BalanceOf(bs[..|bs| - 1], a)
  }

  function SlotOf(c: StorageChange): Slot {
    Slot(c.slot, c.before, c.after, c.after - c.before)
  }

  /** All storage changes of an address, in the order of the trace. */
  function SlotsOf(cs: seq<StorageChange>, a: string): seq<Slot> {
    if cs == [] then []
    else SlotsOf(cs[..|cs| - 1], a) + if Lower(cs[|cs| - 1].address) == a then [SlotOf(cs[|cs| - 1])] else []
  }

  /** Addresses in the order of their first mention, each once. */
  function Mention(order: seq<string>, a: string): seq<string> {
    if a in order then order else order + [a]
  }

  function Addresses(bs: seq<BalanceChange>, cs: seq<StorageChange>): seq<string> {
    if cs != [] then Mention(Addresses(bs, cs[..|cs| - 1]), Lower(cs[|cs| - 1].address))
    else if bs != [] then Mention(Addresses(bs[..|bs| - 1], cs), Lower(bs[|bs| - 1].address))
    else []
  }

  // ---------------------------------------------------------------------------------------------
  // Sorting slots: stable, by name
  // ---------------------------------------------------------------------------------------------

  function InsertSlot(x: Slot, s: seq<Slot>): seq<Slot> {
    if s == [] || !Before(s[0].slot, x.slot) then [x] + s else [s[0]] + InsertSlot(x, s[1..])
  }

  function SortSlots(s: seq<Slot>): seq<Slot> {
    if s == [] then [] else InsertSlot(s[0], SortSlots(s[1..]))
  }

  function Names(s: seq<Slot>): (r: seq<string>)
    ensures |r| == |s| && forall i :: 0 <= i < |s| ==> r[i] == s[i].slot
  {
    seq(|s|, i requires 0 <= i < |s| => s[i].slot)
  }

  ghost predicate DistinctNames(s: seq<Slot>) {
    forall i, j :: 0 <= i < j < |s| ==> s[i].slot != s[j].slot
  }

  lemma {:induction false} InsertedName(x: Slot, s: seq<Slot>)
    requires x.slot !in Names(s)
    ensures Names(InsertSlot(x, s)) == Insert(x.slot, Names(s))
  {
    if s != [] {
      BeforeTotal(x.slot, s[0].slot);
      assert Names(s)[0] == s[0].slot && Names(s)[1..] == Names(s[1..]);
      if Before(s[0].slot, x.slot) {
        BeforeAsymmetric(s[0].slot, x.slot);
        InsertedName(x, s[1..]);
        assert Names(InsertSlot(x, s)) == [s[0].slot] + Names(InsertSlot(x, s[1..]));
      } else {
        assert Names(InsertSlot(x, s)) == [x.slot] + Names(s);
      }
    } else {
      assert Names(InsertSlot(x, s)) == [x.slot];
    }
  }

  lemma {:induction false} SortedNames(s: seq<Slot>)
    requires DistinctNames(s)
    ensures Names(SortSlots(s)) == Sort(Names(s))
  {
    if s != [] {
      SortedNames(s[1..]);
      assert Names(s)[0] == s[0].slot && Names(s)[1..] == Names(s[1..]);
      var r := SortSlots(s[1..]);
      forall i | 0 <= i < |r| ensures r[i].slot != s[0].slot {
        assert r[i] in r;
        SortedSlots(s[1..], r[i]);
        var k :| 0 <= k < |s[1..]| && s[1..][k] == r[i];
        assert s[k + 1] == r[i];
      }
      InsertedName(s[0], r);
    }
  }

  lemma {:induction false} SortedSlots(s: seq<Slot>, y: Slot)
    ensures y in SortSlots(s) <==> y in s
  {
    if s != [] {
      assert s == [s[0]] + s[1..];
      SortedSlots(s[1..], y);
      InsertedSlot(s[0], SortSlots(s[1..]), y);
    }
  }

  lemma {:induction false} InsertedSlot(x: Slot, s: seq<Slot>, y: Slot)
    ensures y in InsertSlot(x, s) <==> y == x || y in s
  {
    if s != [] && Before(s[0].slot, x.slot) {
      assert s == [s[0]] + s[1..];
      InsertedSlot(x, s[1..], y);
    }
  }

  /** Sorting slots with different names gives them in strictly ascending order. */
  lemma SortSlotsFacts(s: seq<Slot>)
    requires DistinctNames(s)
    ensures Ascending(Names(SortSlots(s)))
    ensures forall y :: y in SortSlots(s) <==> y in s
  {
    SortedNames(s);
    SortFacts(Names(s));
    forall y ensures y in SortSlots(s) <==> y in s { SortedSlots(s, y); }
  }

  /** Slots in strictly ascending order are determined by which they are. */
  lemma AscendingSlotsUnique(s: seq<Slot>, t: seq<Slot>)
    requires Ascending(Names(s)) && Ascending(Names(t)) && forall y :: y in s <==> y in t
    ensures s == t
  {
    forall n | n in Names(s) ensures n in Names(t) {
      var k :| 0 <= k < |s| && s[k].slot == n;
      assert s[k] in t;
      var l :| 0 <= l < |t| && t[l] == s[k];
      assert Names(t)[l] == n;
    }
    forall n | n in Names(t) ensures n in Names(s) {
      var k :| 0 <= k < |t| && t[k].slot == n;
      assert t[k] in s;
      var l :| 0 <= l < |s| && s[l] == t[k];
      assert Names(s)[l] == n;
    }
    AscendingUnique(Names(s), Names(t));
    forall i | 0 <= i < |s| ensures s[i] == t[i] {
      assert s[i] in t;
      var k :| 0 <= k < |t| && t[k] == s[i];
      assert Names(t)[k] == Names(s)[i] == Names(t)[i];
      SamePlace(Names(t), i, k);
    }
  }

  lemma SamePlace(s: seq<string>, i: nat, k: nat)
    requires Ascending(s) && i < |s| && k < |s| && s[i] == s[k]
    ensures i == k
  {
    BeforeIrreflexive(s[i]);
  }

  // ---------------------------------------------------------------------------------------------
  // The delta
  // ---------------------------------------------------------------------------------------------

  function AccountOf(bs: seq<BalanceChange>, cs: seq<StorageChange>, a: string): Account {
    Account(a, BalanceOf(bs, a), SortSlots(SlotsOf(cs, a)))
  }

  function Delta(bs: seq<BalanceChange>, cs: seq<StorageChange>): (r: seq<Account>)
    ensures var order := Sort(Addresses(bs, cs));
            |r| == |order| && forall i :: 0 <= i < |r| ==> r[i] == AccountOf(bs, cs, order[i])
  {
    var order := Sort(Addresses(bs, cs));
    seq(|order|, i requires 0 <= i < |order| => AccountOf(bs, cs, order[i]))
  }

  /** An entry of the working map, before deltas are computed. */
  datatype Entry = Entry(balance: Option<(nat, nat)>, storage: seq<StorageChange>)

  /** The map from addresses to entries, with the order in which addresses were added. */
  class Accounts {
    var order: seq<string>
    var entries: map<string, Entry>

    ghost predicate Holds(bs: seq<BalanceChange>, cs: seq<StorageChange>)
      reads this
    {
      && order == Addresses(bs, cs)
      && (forall a :: a in entries <==> a in order)
      && (forall a :: a in entries ==> Describes(entries[a], bs, cs, a))
    }

    constructor ()
      ensures Holds([], [])
    {
      order, entries := [], map[];
    }

    method Get(a: string) returns (e: Entry)
      ensures e == if a in entries then entries[a] else Entry(None, [])
    {
      e := if a in entries then entries[a] else Entry(None, []);
    }

    method Set(a: string, e: Entry)
      modifies this
      ensures entries == old(entries)[a := e]
      ensures order == if a in old(entries) then old(order) else old(order) + [a]
    {
      if a !in entries { order := order + [a]; }
      entries := entries[a := e];
    }

    method AddBalance(b: BalanceChange, ghost bs: seq<BalanceChange>)
      requires Holds(bs, [])
      modifies this
      ensures Holds(bs + [b], [])
    {
      var address := Lower(b.address);
      var e := Get(address);
      Set(address, e.(balance := Some((b.before, b.after))));
      assert (bs + [b])[..|bs|] == bs;
    }

    method AddStorage(c: StorageChange, ghost bs: seq<BalanceChange>, ghost cs: seq<StorageChange>)
      requires Holds(bs, cs)
      modifies this
      ensures Holds(bs, cs + [c])
    {
      var address := Lower(c.address);
      if address !in entries { Unmentioned(bs, cs, address); }
      var e := Get(address);
      Set(address, e.(storage := e.storage + [c]));
      forall a | a in entries ensures Describes(entries[a], bs, cs + [c], a) {
        SlotsPush(cs, c, a);
      }
      assert (cs + [c])[..|cs|] == cs;
    }
  }

  /** An entry holds what the trace says of its address. */
  ghost predicate Describes(e: Entry, bs: seq<BalanceChange>, cs: seq<StorageChange>, a: string) {
    BalanceIn(e) == BalanceOf(bs, a) && SlotList(e.storage) == SlotsOf(cs, a)
  }

  function BalanceIn(e: Entry): Option<Balance> {
    match e.balance
    case None => None
    case Some((before, after)) => Some(Balance(before, after, after - before))
  }

  function SlotList(cs: seq<StorageChange>): (s: seq<Slot>)
    ensures |s| == |cs| && forall i :: 0 <= i < |cs| ==> s[i] == SlotOf(cs[i])
  {
    seq(|cs|, i requires 0 <= i < |cs| => SlotOf(cs[i]))
  }

  lemma SlotsPush(cs: seq<StorageChange>, c: StorageChange, a: string)
    ensures SlotsOf(cs + [c], a) == SlotsOf(cs, a) + if Lower(c.address) == a then [SlotOf(c)] else []
  {
    assert (cs + [c])[..|cs|] == cs;
  }

  lemma {:induction false} AddressesMentioned(bs: seq<BalanceChange>, cs: seq<StorageChange>, a: string)
    ensures a in Addresses(bs, cs) <==>
              (exists b :: b in bs && Lower(b.address) == a) || (exists c :: c in cs && Lower(c.address) == a)
    decreases |bs| + |cs|
  {
    if cs != [] {
      var front := cs[..|cs| - 1];
      assert cs == front + [cs[|cs| - 1]];
      AddressesMentioned(bs, front, a);
    } else if bs != [] {
      var front := bs[..|bs| - 1];
      assert bs == front + [bs[|bs| - 1]];
      AddressesMentioned(front, cs, a);
    }
  }

  ghost predicate Distinct(s: seq<string>) {
    forall i, j :: 0 <= i < j < |s| ==> s[i] != s[j]
  }

  lemma MentionDistinct(s: seq<string>, a: string)
    requires Distinct(s)
    ensures Distinct(Mention(s, a))
  {
  }

  lemma {:induction false} AddressesDistinct(bs: seq<BalanceChange>, cs: seq<StorageChange>)
    ensures Distinct(Addresses(bs, cs))
    decreases |bs| + |cs|
  {
    if cs != [] {
      AddressesDistinct(bs, cs[..|cs| - 1]);
      MentionDistinct(Addresses(bs, cs[..|cs| - 1]), Lower(cs[|cs| - 1].address));
    } else if bs != [] {
      AddressesDistinct(bs[..|bs| - 1], cs);
      MentionDistinct(Addresses(bs[..|bs| - 1], cs), Lower(bs[|bs| - 1].address));
    }
  }

  /** An address that no change mentions has no balance and no slots. */
  lemma {:induction false} Unmentioned(bs: seq<BalanceChange>, cs: seq<StorageChange>, a: string)
    requires a !in Addresses(bs, cs)
    ensures BalanceOf(bs, a) == None && SlotsOf(cs, a) == []
    decreases |bs| + |cs|
  {
    if cs != [] {
      Unmentioned(bs, cs[..|cs| - 1], a);
    } else if bs != [] {
      Unmentioned(bs[..|bs| - 1], cs, a);
    }
  }

  method CollectBalances(bs: seq<BalanceChange>) returns (byAddr: Accounts)
    ensures fresh(byAddr) && byAddr.Holds(bs, [])
  {
    byAddr := new Accounts();
    for i := 0 to |bs|
      invariant byAddr.Holds(bs[..i], [])
    {
      byAddr.AddBalance(bs[i], bs[..i]);
      assert bs[..i + 1] == bs[..i] + [bs[i]];
    }
    assert bs[..|bs|] == bs;
  }

  /** Collect the changes per address, balances first. */
  method Collect(bs: seq<BalanceChange>, cs: seq<StorageChange>) returns (byAddr: Accounts)
    ensures byAddr.Holds(bs, cs)
  {
    byAddr := CollectBalances(bs);
    for i := 0 to |cs|
      invariant fresh(byAddr) && byAddr.Holds(bs, cs[..i])
    {
      byAddr.AddStorage(cs[i], bs, cs[..i]);
      assert cs[..i + 1] == cs[..i] + [cs[i]];
    }
    assert cs[..|cs|] == cs;
  }

  /** Emit the accounts in the given order, with deltas and sorted slots. */
  method Emit(byAddr: Accounts, order: seq<string>, ghost bs: seq<BalanceChange>, ghost cs: seq<StorageChange>)
    returns (accounts: seq<Account>)
    requires byAddr.Holds(bs, cs) && forall a :: a in order ==> a in byAddr.entries
    ensures |accounts| == |order| && forall i :: 0 <= i < |order| ==> accounts[i] == AccountOf(bs, cs, order[i])
  {
    accounts := [];
    for i := 0 to |order|
      invariant |accounts| == i && forall k :: 0 <= k < i ==> accounts[k] == AccountOf(bs, cs, order[k])
    {
      var a := order[i];
      var e := byAddr.entries[a];
      accounts := accounts + [Account(a, BalanceIn(e), SortSlots(SlotList(e.storage)))];
    }
  }

  /** Collect the changes, compute the deltas, and sort accounts and slots. */
  method ComputeCanonicalStateDelta(bs: seq<BalanceChange>, cs: seq<StorageChange>) returns (accounts: seq<Account>)
    ensures accounts == Delta(bs, cs)
  {
    var byAddr := Collect(bs, cs);
    AddressesDistinct(bs, cs);
    SortFacts(byAddr.order);
    accounts := Emit(byAddr, Sort(byAddr.order), bs, cs);
  }

  // ---------------------------------------------------------------------------------------------
  // Canonical order, and independence of the trace's order
  // ---------------------------------------------------------------------------------------------

  function AccountNames(r: seq<Account>): (s: seq<string>)
    ensures |s| == |r| && forall i :: 0 <= i < |r| ==> s[i] == r[i].address
  {
    seq(|r|, i requires 0 <= i < |r| => r[i].address)
  }

  /** No two balance changes of one address. */
  ghost predicate OneBalanceEach(bs: seq<BalanceChange>) {
    forall i, j :: 0 <= i < j < |bs| ==> Lower(bs[i].address) != Lower(bs[j].address)
  }

  /** No two storage changes of one slot of one address. */
  ghost predicate OneChangePerSlot(cs: seq<StorageChange>) {
    forall i, j :: 0 <= i < j < |cs| ==> Lower(cs[i].address) != Lower(cs[j].address) || cs[i].slot != cs[j].slot
  }

  lemma {:induction false} BalanceIff(bs: seq<BalanceChange>, a: string, v: Balance)
    requires OneBalanceEach(bs)
    ensures BalanceOf(bs, a) == Some(v) <==>
              exists b :: b in bs && Lower(b.address) == a && v == Balance(b.before, b.after, b.after - b.before)
  {
    if bs != [] {
      var front, last := bs[..|bs| - 1], bs[|bs| - 1];
      assert bs == front + [last];
      BalanceIff(front, a, v);
      if Lower(last.address) == a {
        forall b | b in front ensures Lower(b.address) != a {
          var k :| 0 <= k < |front| && front[k] == b;
          assert bs[k] == b;
        }
      }
    }
  }

  lemma {:induction false} SlotIff(cs: seq<StorageChange>, a: string, y: Slot)
    ensures y in SlotsOf(cs, a) <==> exists c :: c in cs && Lower(c.address) == a && y == SlotOf(c)
  {
    if cs != [] {
      var front, last := cs[..|cs| - 1], cs[|cs| - 1];
      assert cs == front + [last];
      SlotIff(front, a, y);
    }
  }

  lemma {:induction false} SlotsDistinct(cs: seq<StorageChange>, a: string)
    requires OneChangePerSlot(cs)
    ensures DistinctNames(SlotsOf(cs, a))
  {
    if cs != [] {
      var front, last := cs[..|cs| - 1], cs[|cs| - 1];
      SlotsDistinct(front, a);
      if Lower(last.address) == a {
        var s := SlotsOf(front, a);
        forall i | 0 <= i < |s| ensures s[i].slot != last.slot {
          SlotIff(front, a, s[i]);
          var c :| c in front && Lower(c.address) == a && s[i] == SlotOf(c);
          var k :| 0 <= k < |front| && front[k] == c;
          assert cs[k] == c;
        }
      }
    }
  }

  /** Accounts are in strictly ascending order, each mentioned address once. */
  lemma AccountsAscending(bs: seq<BalanceChange>, cs: seq<StorageChange>)
    ensures Ascending(AccountNames(Delta(bs, cs)))
    ensures forall a :: a in AccountNames(Delta(bs, cs)) <==>
              (exists b :: b in bs && Lower(b.address) == a) || (exists c :: c in cs && Lower(c.address) == a)
  {
    AddressesDistinct(bs, cs);
    SortFacts(Addresses(bs, cs));
    assert AccountNames(Delta(bs, cs)) == Sort(Addresses(bs, cs));
    forall a
      ensures a in AccountNames(Delta(bs, cs)) <==>
                (exists b :: b in bs && Lower(b.address) == a) || (exists c :: c in cs && Lower(c.address) == a)
    {
      AddressesMentioned(bs, cs, a);
    }
  }

  /** Within an account slots are in strictly ascending order when the trace changes each at most
      once, and they are exactly the changes of that account. */
  lemma SlotsAscending(bs: seq<BalanceChange>, cs: seq<StorageChange>, a: string)
    requires OneChangePerSlot(cs)
    ensures Ascending(Names(AccountOf(bs, cs, a).storage))
    ensures forall y :: y in AccountOf(bs, cs, a).storage <==> exists c :: c in cs && Lower(c.address) == a && y == SlotOf(c)
  {
    SlotsDistinct(cs, a);
    SortSlotsFacts(SlotsOf(cs, a));
    forall y ensures y in SlotsOf(cs, a) <==> exists c :: c in cs && Lower(c.address) == a && y == SlotOf(c) {
      SlotIff(cs, a, y);
    }
  }

  /** What the order is: addresses and slots are compared character by character. */
  lemma OrderOfNames(bs: seq<BalanceChange>, cs: seq<StorageChange>, a: string)
    ensures forall i, j :: 0 <= i < j < |Delta(bs, cs)| ==> Precedes(Delta(bs, cs)[i].address, Delta(bs, cs)[j].address)
    ensures OneChangePerSlot(cs) ==>
              forall i, j :: 0 <= i < j < |AccountOf(bs, cs, a).storage| ==>
                Precedes(AccountOf(bs, cs, a).storage[i].slot, AccountOf(bs, cs, a).storage[j].slot)
  {
    AccountsAscending(bs, cs);
    NamesPrecede(AccountNames(Delta(bs, cs)));
    if OneChangePerSlot(cs) {
      SlotsAscending(bs, cs, a);
      NamesPrecede(Names(AccountOf(bs, cs, a).storage));
    }
  }

  lemma NamesPrecede(s: seq<string>)
    requires Ascending(s)
    ensures forall i, j :: 0 <= i < j < |s| ==> Precedes(s[i], s[j])
  {
    AscendingIff(s);
  }

  ghost predicate Consistent(r: seq<Account>) {
    forall i :: 0 <= i < |r| ==>
      && (r[i].balance.Some? ==> r[i].balance.value.before + r[i].balance.value.delta == r[i].balance.value.after)
      && (forall k :: 0 <= k < |r[i].storage| ==> r[i].storage[k].before + r[i].storage[k].delta == r[i].storage[k].after)
  }

  /** Everywhere, before plus delta is after; also when slots or addresses repeat. */
  lemma DeltasAddUp(bs: seq<BalanceChange>, cs: seq<StorageChange>)
    ensures Consistent(Delta(bs, cs))
  {
    var r := Delta(bs, cs);
    forall i | 0 <= i < |r|
      ensures r[i].balance.Some? ==> r[i].balance.value.before + r[i].balance.value.delta == r[i].balance.value.after
      ensures forall k :: 0 <= k < |r[i].storage| ==> r[i].storage[k].before + r[i].storage[k].delta == r[i].storage[k].after
    {
      BalanceAdds(bs, r[i].address);
      forall y | y in r[i].storage ensures y.before + y.delta == y.after {
        SortedSlots(SlotsOf(cs, r[i].address), y);
        SlotIff(cs, r[i].address, y);
      }
    }
  }

  lemma {:induction false} BalanceAdds(bs: seq<BalanceChange>, a: string)
    ensures BalanceOf(bs, a).Some? ==> BalanceOf(bs, a).value.before + BalanceOf(bs, a).value.delta == BalanceOf(bs, a).value.after
  {
    if bs != [] { BalanceAdds(bs[..|bs| - 1], a); }
  }

  /** The delta depends on which changes the trace lists and not on their order, as long as it lists
      each account's balance and each slot once. */
  lemma OrderDoesNotMatter(bs: seq<BalanceChange>, cs: seq<StorageChange>, bs': seq<BalanceChange>, cs': seq<StorageChange>)
    requires multiset(bs) == multiset(bs') && multiset(cs) == multiset(cs')
    requires OneBalanceEach(bs) && OneChangePerSlot(cs) && OneBalanceEach(bs') && OneChangePerSlot(cs')
    ensures Delta(bs, cs) == Delta(bs', cs')
  {
    SameMembers(bs, bs');
    SameMembers(cs, cs');
    AccountsAscending(bs, cs);
    AccountsAscending(bs', cs');
    AscendingUnique(AccountNames(Delta(bs, cs)), AccountNames(Delta(bs', cs')));
    var r, r' := Delta(bs, cs), Delta(bs', cs');
    forall i | 0 <= i < |r| ensures r[i] == r'[i] {
      assert AccountNames(r)[i] == AccountNames(r')[i];
      SameAccount(bs, cs, bs', cs', r[i].address);
    }
  }

  lemma SameMembers<T>(s: seq<T>, t: seq<T>)
    requires multiset(s) == multiset(t)
    ensures forall x :: x in s <==> x in t
  {
    forall x ensures x in s <==> x in t {
      assert x in s <==> x in multiset(s);
      assert x in t <==> x in multiset(t);
    }
  }

  lemma SameAccount(bs: seq<BalanceChange>, cs: seq<StorageChange>, bs': seq<BalanceChange>, cs': seq<StorageChange>, a: string)
    requires OneBalanceEach(bs) && OneChangePerSlot(cs) && OneBalanceEach(bs') && OneChangePerSlot(cs')
    requires (forall b :: b in bs <==> b in bs') && (forall c :: c in cs <==> c in cs')
    ensures AccountOf(bs, cs, a) == AccountOf(bs', cs', a)
  {
    if BalanceOf(bs, a).Some? {
      BalanceIff(bs, a, BalanceOf(bs, a).value);
      BalanceIff(bs', a, BalanceOf(bs, a).value);
    } else if BalanceOf(bs', a).Some? {
      BalanceIff(bs', a, BalanceOf(bs', a).value);
      BalanceIff(bs, a, BalanceOf(bs', a).value);
    }
    SlotsAscending(bs, cs, a);
    SlotsAscending(bs', cs', a);
    AscendingSlotsUnique(AccountOf(bs, cs, a).storage, AccountOf(bs', cs', a).storage);
  }

  // ---------------------------------------------------------------------------------------------
  // What an account of the delta says
  // ---------------------------------------------------------------------------------------------

  lemma SlotMeans(cs: seq<StorageChange>, a: string, n: string, x: nat, y: nat, d: int)
    ensures Slot(n, x, y, d) in SlotsOf(cs, a) <==>
              d == y - x && exists address :: StorageChange(address, n, x, y) in cs && Lower(address) == a
  {
    SlotIff(cs, a, Slot(n, x, y, d));
    if c :| c in cs && Lower(c.address) == a && Slot(n, x, y, d) == SlotOf(c) {
      assert c == StorageChange(c.address, n, x, y);
    }
    if address :| d == y - x && StorageChange(address, n, x, y) in cs && Lower(address) == a {
      assert SlotOf(StorageChange(address, n, x, y)) == Slot(n, x, y, d);
    }
  }

  /** Change i is the last balance change of the address. */
  ghost predicate LastOf(bs: seq<BalanceChange>, i: int, a: string) {
    0 <= i < |bs| && Lower(bs[i].address) == a && forall j :: i < j < |bs| ==> Lower(bs[j].address) != a
  }

  lemma {:induction false} BalanceMeans(bs: seq<BalanceChange>, a: string, x: nat, y: nat, d: int)
    ensures BalanceOf(bs, a) == Some(Balance(x, y, d)) <==>
              d == y - x && exists i :: LastOf(bs, i, a) && bs[i].before == x && bs[i].after == y
  {
    if bs != [] {
      var n := |bs| - 1;
      BalanceMeans(bs[..n], a, x, y, d);
      if Lower(bs[n].address) == a {
        assert LastOf(bs, n, a);
      } else {
        forall i ensures LastOf(bs, i, a) <==> LastOf(bs[..n], i, a) {}
      }
    }
  }

  /** An account lists exactly the storage changes of its address, each with its slot, the value before,
      the value after and their difference; and the last balance change of its address, likewise. */
  lemma AccountMeans(bs: seq<BalanceChange>, cs: seq<StorageChange>, k: nat, n: string, x: nat, y: nat, d: int)
    requires k < |Delta(bs, cs)|
    ensures var r := Delta(bs, cs)[k];
            Slot(n, x, y, d) in r.storage <==>
              d == y - x && exists address :: StorageChange(address, n, x, y) in cs && Lower(address) == r.address
    ensures var r := Delta(bs, cs)[k];
            r.balance == Some(Balance(x, y, d)) <==>
              d == y - x && exists i :: LastOf(bs, i, r.address) && bs[i].before == x && bs[i].after == y
  {
    var a := Delta(bs, cs)[k].address;
    SortedSlots(SlotsOf(cs, a), Slot(n, x, y, d));
    SlotMeans(cs, a, n, x, y, d);
    BalanceMeans(bs, a, x, y, d);
  }
}
