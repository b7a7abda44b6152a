/** What each comparison of an intent with its execution demands, from the fields of both. */
module IntentBinding {
  import opened Json
  import opened Canonical
  import opened Fields
  import opened Verifier

  // A name is among the violations of a comparison that does not throw exactly when it stands with
  // Some(false) in Comparisons; the comparison throws exactly where it stands with None.

  const NAMES: seq<string> := ["target", "signer", "selector", "value", "recipient", "nonce", "blockTimestamp", "validAfter", "validUntil", "chainId"]

  lemma NamesDiffer(i: nat, j: nat)
    requires i < j < 10
    ensures NAMES[i] != NAMES[j]
  {
    assert |NAMES[0]| == 6 && |NAMES[1]| == 6 && NAMES[0][0] == 't' && NAMES[1][0] == 's';
    assert |NAMES[2]| == 8 && |NAMES[4]| == 9 && |NAMES[6]| == 14 && |NAMES[9]| == 7;
    assert |NAMES[3]| == 5 && |NAMES[5]| == 5 && NAMES[3][0] == 'v' && NAMES[5][0] == 'n';
    assert |NAMES[7]| == 10 && |NAMES[8]| == 10 && NAMES[7][5] == 'A' && NAMES[8][5] == 'U';
  }

  /** A list under ten different names has one entry for each. */
  lemma EntryIs(cs: seq<(string, Option<bool>)>, i: nat, name: string, x: Option<bool>)
    requires |cs| == 10 && i < 10 && name == NAMES[i] && forall k :: 0 <= k < 10 ==> cs[k].0 == NAMES[k]
    ensures (name, x) in cs <==> cs[i].1 == x
  {
    if cs[i].1 == x { assert cs[i] == (name, x); }
    if (name, x) in cs {
      var k :| 0 <= k < 10 && cs[k] == (name, x);
      if k < i { NamesDiffer(k, i); } else if i < k { NamesDiffer(i, k); }
    }
  }

  lemma ComparisonIs(w: World, intent: Value, trace: Value, receipt: Value, i: nat, name: string, x: Option<bool>)
    requires i < 10 && name == NAMES[i]
    ensures (name, x) in Comparisons(w, intent, trace, receipt) <==> Comparisons(w, intent, trace, receipt)[i].1 == x
  {
    EntryIs(Comparisons(w, intent, trace, receipt), i, name, x);
  }

  /** The target is the address called, without regard to case. */
  lemma Target(w: World, intent: Value, trace: Value, receipt: Value, a: Option<Value>, b: Option<Value>)
    requires a == Field(intent, "target") && b == Field(trace, "to")
    ensures ("target", Some(false)) in Comparisons(w, intent, trace, receipt) <==>
              && Truthy(a) && Truthy(b) && a.value.Str? && b.value.Str?
              && w.co.host.lower(a.value.s) != w.co.host.lower(b.value.s)
    ensures ("target", None) in Comparisons(w, intent, trace, receipt) <==>
              Truthy(a) && Truthy(b) && !(a.value.Str? && b.value.Str?)
  {
    ComparisonIs(w, intent, trace, receipt, 0, "target", Some(false));
    ComparisonIs(w, intent, trace, receipt, 0, "target", None);
  }

  /** The signer is the sender, without regard to case. */
  lemma Signer(w: World, intent: Value, trace: Value, receipt: Value, a: Option<Value>, b: Option<Value>)
    requires a == Field(intent, "signer") && b == Field(trace, "from")
    ensures ("signer", Some(false)) in Comparisons(w, intent, trace, receipt) <==>
              && Truthy(a) && Truthy(b) && a.value.Str? && b.value.Str?
              && w.co.host.lower(a.value.s) != w.co.host.lower(b.value.s)
    ensures ("signer", None) in Comparisons(w, intent, trace, receipt) <==>
              Truthy(a) && Truthy(b) && !(a.value.Str? && b.value.Str?)
  {
    ComparisonIs(w, intent, trace, receipt, 1, "signer", Some(false));
    ComparisonIs(w, intent, trace, receipt, 1, "signer", None);
  }

  /** The selector is the first ten characters of the call data, without regard to case. */
  lemma Selector(w: World, intent: Value, trace: Value, receipt: Value, a: Option<Value>, data: Option<Value>)
    requires a == Field(intent, "selector") && data == Field(trace, "calldata")
    ensures ("selector", Some(false)) in Comparisons(w, intent, trace, receipt) <==>
              && Truthy(a) && Truthy(data) && a.value.Str? && data.value.Str? && |data.value.s| >= 10
              && w.co.host.lower(a.value.s) != w.co.host.lower(data.value.s[..10])
    ensures ("selector", None) in Comparisons(w, intent, trace, receipt) <==>
              Truthy(a) && Truthy(data) && LengthReaches(w.co, data.value) && !(a.value.Str? && data.value.Str?)
  {
    ComparisonIs(w, intent, trace, receipt, 2, "selector", Some(false));
    ComparisonIs(w, intent, trace, receipt, 2, "selector", None);
  }

  /** The spending cap: moving more than the amount is a violation, and nothing else is. */
  lemma SpendingCap(w: World, intent: Value, trace: Value, receipt: Value, a: Option<Value>, b: Option<Value>)
    requires a == Field(intent, "amount") && b == Field(trace, "value")
    ensures ("value", Some(false)) in Comparisons(w, intent, trace, receipt) <==>
              && Truthy(a) && Truthy(b) && IntOf(w.co, a.value).Some? && IntOf(w.co, b.value).Some?
              && IntOf(w.co, b.value).value > IntOf(w.co, a.value).value
    ensures ("value", None) in Comparisons(w, intent, trace, receipt) <==>
              Truthy(a) && Truthy(b) && (IntOf(w.co, a.value).None? || IntOf(w.co, b.value).None?)
  {
    ComparisonIs(w, intent, trace, receipt, 3, "value", Some(false));
    ComparisonIs(w, intent, trace, receipt, 3, "value", None);
  }

  /** The recipient is an argument in the call data: characters 34 to 74 of a transfer, and 98 to 138 of
      a transfer from another account. */
  lemma Recipient(w: World, intent: Value, trace: Value, receipt: Value, a: Option<Value>, data: string, found: string)
    requires a == Field(intent, "recipient") && Truthy(a) && a.value.Str? && Field(intent, "action") == Some(Str("TRANSFER"))
    requires Field(trace, "calldata") == Some(Str(data)) && |data| >= 74
    requires (data[..10] == "0xa9059cbb" && found == "0x" + data[34..74])
          || (data[..10] == "0x23b872dd" && |data| >= 138 && found == "0x" + data[98..138])
    ensures ("recipient", Some(false)) in Comparisons(w, intent, trace, receipt) <==>
              w.co.host.lower(a.value.s) != w.co.host.lower(found)
    ensures ("recipient", Some(true)) in Comparisons(w, intent, trace, receipt) <==>
              w.co.host.lower(a.value.s) == w.co.host.lower(found)
  {
    assert "0xa9059cbb"[2] == 'a' && "0x23b872dd"[2] == '2';
    ComparisonIs(w, intent, trace, receipt, 4, "recipient", Some(false));
    ComparisonIs(w, intent, trace, receipt, 4, "recipient", Some(true));
  }

  /** Without a recipient, without a transfer, or without such call data nothing is compared. */
  lemma RecipientOpen(w: World, intent: Value, trace: Value, receipt: Value, a: Option<Value>, data: Option<Value>)
    requires a == Field(intent, "recipient") && data == Field(trace, "calldata")
    requires !Truthy(a) || Field(intent, "action") != Some(Str("TRANSFER"))
          || !Truthy(data) || data.value.Arr?
          || (data.value.Str? && !(|data.value.s| >= 74 && data.value.s[..10] == "0xa9059cbb")
                              && !(|data.value.s| >= 138 && data.value.s[..10] == "0x23b872dd"))
    ensures ("recipient", Some(true)) in Comparisons(w, intent, trace, receipt)
  {
    ComparisonIs(w, intent, trace, receipt, 4, "recipient", Some(true));
  }

  lemma NoPart(w: World, intent: Value, trace: Value, a: Option<Value>, data: Option<Value>)
    requires a == Field(intent, "recipient") && Truthy(a) && Field(intent, "action") == Some(Str("TRANSFER"))
    requires data == Field(trace, "calldata") && Truthy(data) && !data.value.Str? && !data.value.Arr?
    ensures RecipientCheck(w, intent, trace) == if LengthUnder(w.co, data.value) then Some(true) else None
  {
  }

  /** Where a recipient is compared with something that has none to take, the program throws. */
  lemma RecipientThrows(w: World, intent: Value, trace: Value, receipt: Value, a: Option<Value>, data: Option<Value>)
    requires a == Field(intent, "recipient") && Truthy(a) && Field(intent, "action") == Some(Str("TRANSFER"))
    requires data == Field(trace, "calldata") && Truthy(data) && !data.value.Str? && !data.value.Arr?
    ensures ("recipient", None) in Comparisons(w, intent, trace, receipt) <==> !LengthUnder(w.co, data.value)
  {
    NoPart(w, intent, trace, a, data);
    RecipientIs(w, intent, trace, receipt, None);
  }

  lemma RecipientIs(w: World, intent: Value, trace: Value, receipt: Value, x: Option<bool>)
    ensures ("recipient", x) in Comparisons(w, intent, trace, receipt) <==> RecipientCheck(w, intent, trace) == x
  {
    ComparisonIs(w, intent, trace, receipt, 4, "recipient", x);
  }

  /** Nonces are compared as texts, without regard to case, when both are there. */
  lemma Nonce(w: World, intent: Value, trace: Value, receipt: Value, a: Option<Value>, b: Option<Value>)
    requires a == Field(intent, "nonce") && b == Field(trace, "nonce")
    ensures ("nonce", Some(false)) in Comparisons(w, intent, trace, receipt) <==>
              && a.Some? && a.value != Null && b.Some? && b.value != Null
              && w.co.host.lower(StringOf(w.co, a.value)) != w.co.host.lower(StringOf(w.co, b.value))
    ensures ("nonce", None) !in Comparisons(w, intent, trace, receipt)
  {
    ComparisonIs(w, intent, trace, receipt, 5, "nonce", Some(false));
    ComparisonIs(w, intent, trace, receipt, 5, "nonce", None);
  }

  /** An execution mined before the window opens is a violation. The block time counts as 0 when it is falsy. */
  lemma ValidAfter(w: World, intent: Value, trace: Value, receipt: Value, t: Option<Value>, start: Option<Value>, m: int, n: int)
    requires t == Field(trace, "blockTimestamp") && t.Some? && t.value != Null && start == Field(intent, "validAfter")
    requires IntOf(w.co, if Truthy(t) then t.value else Str("0")) == Some(m)
    requires start.Some? && start.value != Str("") && IntOf(w.co, start.value) == Some(n)
    ensures ("validAfter", Some(false)) in Comparisons(w, intent, trace, receipt) <==> m < n
    ensures ("validAfter", Some(true)) in Comparisons(w, intent, trace, receipt) <==> n <= m
  {
    ComparisonIs(w, intent, trace, receipt, 7, "validAfter", Some(false));
    ComparisonIs(w, intent, trace, receipt, 7, "validAfter", Some(true));
  }

  /** So is one mined after the window has closed. */
  lemma ValidUntil(w: World, intent: Value, trace: Value, receipt: Value, t: Option<Value>, end: Option<Value>, m: int, n: int)
    requires t == Field(trace, "blockTimestamp") && t.Some? && t.value != Null && end == Field(intent, "validUntil")
    requires IntOf(w.co, if Truthy(t) then t.value else Str("0")) == Some(m)
    requires end.Some? && end.value != Str("") && IntOf(w.co, end.value) == Some(n)
    ensures ("validUntil", Some(false)) in Comparisons(w, intent, trace, receipt) <==> n < m
    ensures ("validUntil", Some(true)) in Comparisons(w, intent, trace, receipt) <==> m <= n
  {
    ComparisonIs(w, intent, trace, receipt, 8, "validUntil", Some(false));
    ComparisonIs(w, intent, trace, receipt, 8, "validUntil", Some(true));
  }

  /** Where the window is compared but the times cannot be read, the program throws; without a block
      time nothing is compared. */
  lemma WindowThrows(w: World, intent: Value, trace: Value, receipt: Value, t: Option<Value>, after: Option<Value>, until: Option<Value>)
    requires t == Field(trace, "blockTimestamp")
    requires after == Field(intent, "validAfter") && until == Field(intent, "validUntil")
    ensures ("blockTimestamp", None) in Comparisons(w, intent, trace, receipt) <==>
              t.Some? && t.value != Null && IntOf(w.co, if Truthy(t) then t.value else Str("0")).None?
    ensures ("blockTimestamp", Some(false)) !in Comparisons(w, intent, trace, receipt)
    ensures ("blockTimestamp", None) !in Comparisons(w, intent, trace, receipt) ==>
              && (("validAfter", None) in Comparisons(w, intent, trace, receipt) <==>
                    t.Some? && t.value != Null && after.Some? && after.value != Str("") && IntOf(w.co, after.value).None?)
              && (("validUntil", None) in Comparisons(w, intent, trace, receipt) <==>
                    t.Some? && t.value != Null && until.Some? && until.value != Str("") && IntOf(w.co, until.value).None?)
    ensures t.None? || t.value == Null ==>
              ("validAfter", Some(true)) in Comparisons(w, intent, trace, receipt)
              && ("validUntil", Some(true)) in Comparisons(w, intent, trace, receipt)
  {
    ComparisonIs(w, intent, trace, receipt, 6, "blockTimestamp", None);
    ComparisonIs(w, intent, trace, receipt, 6, "blockTimestamp", Some(false));
    ComparisonIs(w, intent, trace, receipt, 7, "validAfter", None);
    ComparisonIs(w, intent, trace, receipt, 8, "validUntil", None);
    ComparisonIs(w, intent, trace, receipt, 7, "validAfter", Some(true));
    ComparisonIs(w, intent, trace, receipt, 8, "validUntil", Some(true));
  }

  /** Chains are compared as texts when neither is falsy. */
  lemma Chain(w: World, intent: Value, trace: Value, receipt: Value, a: Option<Value>, b: Option<Value>)
    requires a == Field(intent, "chainId") && b == Field(receipt, "chainId")
    ensures ("chainId", Some(false)) in Comparisons(w, intent, trace, receipt) <==>
              Truthy(a) && Truthy(b) && StringOf(w.co, a.value) != StringOf(w.co, b.value)
    ensures ("chainId", None) !in Comparisons(w, intent, trace, receipt)
  {
    ComparisonIs(w, intent, trace, receipt, 9, "chainId", Some(false));
    ComparisonIs(w, intent, trace, receipt, 9, "chainId", None);
  }

  lemma AllHold(cs: seq<(string, Option<bool>)>)
    ensures (forall c | c in cs :: c.1 == Some(true)) <==> forall name :: (name, None) !in cs && (name, Some(false)) !in cs
  {
    if name :| (name, None) in cs || (name, Some(false)) in cs {
      assert !forall c | c in cs :: c.1 == Some(true);
    } else {
      forall c | c in cs ensures c.1 == Some(true) { EntryHolds(cs, c.0, c.1); }
    }
  }

  lemma EntryHolds(cs: seq<(string, Option<bool>)>, name: string, x: Option<bool>)
    requires (name, x) in cs && (name, None) !in cs && (name, Some(false)) !in cs
    ensures x == Some(true)
  {
    ThreeAnswers(x);
  }

  lemma ThreeAnswers(x: Option<bool>)
    ensures x == None || x == Some(true) || x == Some(false)
  {
    if x.Some? {
      if x.value { assert x == Some(true); } else { assert x == Some(false); }
    }
  }

  /** An execution is bound exactly when nothing throws and nothing is violated. */
  lemma BoundIff(w: World, intent: Value, trace: Value, receipt: Value, cs: seq<(string, Option<bool>)>)
    requires cs == Comparisons(w, intent, trace, receipt)
    ensures Bound(w, intent, trace, receipt) <==> forall name :: (name, None) !in cs && (name, Some(false)) !in cs
  {
    AllHold(cs);
  }

  /** Within the cap: a bound execution moves at most the amount, on the committed chain and inside the
      window, wherever both sides say something. */
  lemma BoundMeans(w: World, intent: Value, trace: Value, receipt: Value)
    requires Bound(w, intent, trace, receipt)
    ensures var a, b := Field(intent, "amount"), Field(trace, "value");
            Truthy(a) && Truthy(b) ==>
              IntOf(w.co, a.value).Some? && IntOf(w.co, b.value).Some? && IntOf(w.co, b.value).value <= IntOf(w.co, a.value).value
    ensures var a, b := Field(intent, "target"), Field(trace, "to");
            Truthy(a) && Truthy(b) ==> a.value.Str? && b.value.Str? && w.co.host.lower(a.value.s) == w.co.host.lower(b.value.s)
    ensures var a, b := Field(intent, "signer"), Field(trace, "from");
            Truthy(a) && Truthy(b) ==> a.value.Str? && b.value.Str? && w.co.host.lower(a.value.s) == w.co.host.lower(b.value.s)
    ensures var a, b := Field(intent, "chainId"), Field(receipt, "chainId");
            Truthy(a) && Truthy(b) ==> StringOf(w.co, a.value) == StringOf(w.co, b.value)
  {
    BoundIff(w, intent, trace, receipt, Comparisons(w, intent, trace, receipt));
    SpendingCap(w, intent, trace, receipt, Field(intent, "amount"), Field(trace, "value"));
    Target(w, intent, trace, receipt, Field(intent, "target"), Field(trace, "to"));
    Signer(w, intent, trace, receipt, Field(intent, "signer"), Field(trace, "from"));
    Chain(w, intent, trace, receipt, Field(intent, "chainId"), Field(receipt, "chainId"));
  }
}
