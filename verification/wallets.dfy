/** Wallet lists: lookup by address (Array.prototype.find), the active
    wallet tie-break used at load and at unlock, and removal by address
    (Array.prototype.filter). Wallets are compared only by `address`. */
module WalletList {
  import opened Types

  predicate HasAddress(ws: seq<Wallet>, a: string) {
    exists i :: 0 <= i < |ws| && ws[i].address == a
  }

  /** The set invariant of a wallet list: no address occurs twice. */
  predicate DistinctAddresses(ws: seq<Wallet>) {
    forall i, j :: 0 <= i < j < |ws| ==> ws[i].address != ws[j].address
  }

  /** `w` is the earliest element of `ws` whose address is `a`. */
  ghost predicate FirstWithAddress(ws: seq<Wallet>, a: string, w: Wallet) {
    exists i :: 0 <= i < |ws| && ws[i] == w && w.address == a && !HasAddress(ws[..i], a)
  }

  /** Position of the first wallet with address `a`. */
  function IndexOfAddress(ws: seq<Wallet>, a: string): (r: Option<nat>)
    ensures r.Some? <==> HasAddress(ws, a)
    ensures r.Some? ==> r.value < |ws| && ws[r.value].address == a && !HasAddress(ws[..r.value], a)
    decreases |ws|
  {
    if |ws| == 0 then None
    else if ws[0].address == a then
      assert ws[..0] == [];
      Some(0)
    else
      match IndexOfAddress(ws[1..], a)
      case None =>
        assert !HasAddress(ws, a) by {
          forall i | 0 <= i < |ws| ensures ws[i].address != a {
            if i > 0 { assert ws[i] == ws[1..][i - 1]; }
          }
        }
        None
      case Some(i) =>
        assert ws[1..][i] == ws[i + 1];
        assert !HasAddress(ws[..i + 1], a) by {
          forall j | 0 <= j < i + 1 ensures ws[j].address != a {
            if j > 0 {
              assert ws[j] == ws[1..][..i][j - 1];
            }
          }
        }
        Some(i + 1)
  }

  /** The first wallet with address `a`, if any. */
  function Find(ws: seq<Wallet>, a: string): (r: Option<Wallet>)
    ensures r.Some? <==> HasAddress(ws, a)
    ensures r.Some? ==> r.value in ws && FirstWithAddress(ws, a, r.value)
  {
    match IndexOfAddress(ws, a)
    case None => None
    case Some(i) => Some(ws[i])
  }

  /** The active wallet chosen from a non-empty list: the first element
      whose address is the stored id when the id is truthy and matches,
      otherwise the first element of the list. */
  function SelectActive(ws: seq<Wallet>, id: Option<string>): (r: Wallet)
    requires |ws| > 0
    ensures r in ws
    ensures Truthy(id) && HasAddress(ws, id.value) ==> FirstWithAddress(ws, id.value, r)
    ensures !(Truthy(id) && HasAddress(ws, id.value)) ==> r == ws[0]
  {
    if Truthy(id) then
      match Find(ws, id.value)
      case Some(w) => w
      case None => ws[0]
    else ws[0]
  }

  /** With distinct addresses the tie-break is exact: asking for a member's
      address selects that member. */
  lemma SelectMember(ws: seq<Wallet>, w: Wallet)
    requires DistinctAddresses(ws)
    requires w in ws && w.address != ""
    ensures SelectActive(ws, Some(w.address)) == w
  {
    var k :| 0 <= k < |ws| && ws[k] == w;
    var r := SelectActive(ws, Some(w.address));
    assert HasAddress(ws, w.address);
    var i :| 0 <= i < |ws| && ws[i] == r && r.address == w.address && !HasAddress(ws[..i], w.address);
    assert ws[i].address == ws[k].address;
    assert i == k;
  }

  /** All wallets whose address differs from `a`, in their original order. */
  function RemoveByAddress(ws: seq<Wallet>, a: string): (r: seq<Wallet>)
    ensures forall w :: w in r <==> w in ws && w.address != a
    ensures |r| <= |ws|
    decreases |ws|
  {
    if |ws| == 0 then []
    else
      var rest := RemoveByAddress(ws[1..], a);
      assert forall w :: w in ws <==> w == ws[0] || w in ws[1..];
      if ws[0].address == a then rest else [ws[0]] + rest
  }

  /** Removal is `filter`: every wallet with another address is kept as
      many times as it occurs, and none with the address survives. */
  lemma {:induction false} RemoveKeepsCounts(ws: seq<Wallet>, a: string)
    ensures forall w :: multiset(RemoveByAddress(ws, a))[w] == (if w.address == a then 0 else multiset(ws)[w])
    decreases |ws|
  {
    if |ws| > 0 {
      var rest := RemoveByAddress(ws[1..], a);
      RemoveKeepsCounts(ws[1..], a);
      assert ws == [ws[0]] + ws[1..];
      assert multiset(ws) == multiset{ws[0]} + multiset(ws[1..]);
      if ws[0].address != a {
        assert multiset([ws[0]] + rest) == multiset{ws[0]} + multiset(rest);
      }
    }
  }

  /** `a` is `b` with some elements left out, the rest in the same order. */
  predicate IsSubsequence(a: seq<Wallet>, b: seq<Wallet>)
    decreases |b|
  {
    if |a| == 0 then true
    else if |b| == 0 then false
    else if a[0] == b[0] then IsSubsequence(a[1..], b[1..])
    else IsSubsequence(a, b[1..])
  }

  lemma {:induction false} SubsequenceOfTail(a: seq<Wallet>, b: seq<Wallet>)
    requires |b| > 0 && IsSubsequence(a, b[1..])
    ensures IsSubsequence(a, b)
    decreases |b|, 0
  {
    if |a| > 0 && a[0] == b[0] {
      // IsSubsequence(a, b[1..]) with a[0] == b[0]: drop one more head from b[1..]
      SubsequenceDropHead(a, b[1..]);
    }
  }

  lemma {:induction false} SubsequenceDropHead(a: seq<Wallet>, b: seq<Wallet>)
    requires |a| > 0 && IsSubsequence(a, b)
    ensures IsSubsequence(a[1..], b)
    decreases |b|, 1
  {
    assert |b| > 0;
    if a[0] == b[0] {
      SubsequenceOfTail(a[1..], b);
    } else {
      SubsequenceDropHead(a, b[1..]);
      SubsequenceOfTail(a[1..], b);
    }
  }

  /** Removal keeps the relative order of the surviving wallets. */
  lemma {:induction false} RemoveKeepsOrder(ws: seq<Wallet>, a: string)
    ensures IsSubsequence(RemoveByAddress(ws, a), ws)
    decreases |ws|
  {
    if |ws| > 0 {
      var rest := RemoveByAddress(ws[1..], a);
      RemoveKeepsOrder(ws[1..], a);
      if ws[0].address == a {
        SubsequenceOfTail(rest, ws);
      } else {
        assert ([ws[0]] + rest)[1..] == rest;
      }
    }
  }

  /** Removal preserves the distinct-address invariant. */
  lemma {:induction false} RemoveKeepsDistinct(ws: seq<Wallet>, a: string)
    requires DistinctAddresses(ws)
    ensures DistinctAddresses(RemoveByAddress(ws, a))
    decreases |ws|
  {
    if |ws| > 0 {
      var rest := RemoveByAddress(ws[1..], a);
      assert DistinctAddresses(ws[1..]) by {
        forall i, j | 0 <= i < j < |ws[1..]| ensures ws[1..][i].address != ws[1..][j].address {
          assert ws[1..][i] == ws[i + 1] && ws[1..][j] == ws[j + 1];
        }
      }
      RemoveKeepsDistinct(ws[1..], a);
      if ws[0].address != a {
        var r := [ws[0]] + rest;
        forall x | x in rest ensures x.address != ws[0].address {
          assert x in ws[1..];
          var k :| 0 <= k < |ws[1..]| && ws[1..][k] == x;
          assert ws[k + 1] == x;
        }
        forall i, j | 0 <= i < j < |r| ensures r[i].address != r[j].address {
          assert r[j] == rest[j - 1];
          if i > 0 {
            assert r[i] == rest[i - 1];
          }
        }
      }
    }
  }

  /** Removing an address that is not present changes nothing. */
  lemma {:induction false} RemoveAbsent(ws: seq<Wallet>, a: string)
    requires !HasAddress(ws, a)
    ensures RemoveByAddress(ws, a) == ws
    decreases |ws|
  {
    if |ws| > 0 {
      assert ws[0].address != a;
      assert !HasAddress(ws[1..], a) by {
        forall i | 0 <= i < |ws[1..]| ensures ws[1..][i].address != a {
          assert ws[1..][i] == ws[i + 1];
        }
      }
      RemoveAbsent(ws[1..], a);
      assert ws == [ws[0]] + ws[1..];
    }
  }

  /** With distinct addresses, removing a present address drops exactly
      one wallet. */
  lemma {:induction false} RemovePresentShrinksByOne(ws: seq<Wallet>, a: string)
    requires DistinctAddresses(ws) && HasAddress(ws, a)
    ensures |RemoveByAddress(ws, a)| == |ws| - 1
    decreases |ws|
  {
    assert |ws| > 0;
    assert DistinctAddresses(ws[1..]) by {
      forall i, j | 0 <= i < j < |ws[1..]| ensures ws[1..][i].address != ws[1..][j].address {
        assert ws[1..][i] == ws[i + 1] && ws[1..][j] == ws[j + 1];
      }
    }
    if ws[0].address == a {
      assert !HasAddress(ws[1..], a) by {
        forall i | 0 <= i < |ws[1..]| ensures ws[1..][i].address != a {
          assert ws[1..][i] == ws[i + 1];
        }
      }
      RemoveAbsent(ws[1..], a);
    } else {
      var k :| 0 <= k < |ws| && ws[k].address == a;
      assert ws[1..][k - 1] == ws[k];
      RemovePresentShrinksByOne(ws[1..], a);
    }
  }

  /** Appending a wallet whose address is new keeps the invariant. */
  lemma AppendNewKeepsDistinct(ws: seq<Wallet>, w: Wallet)
    requires DistinctAddresses(ws) && !HasAddress(ws, w.address)
    ensures DistinctAddresses(ws + [w])
  {
    var r := ws + [w];
    forall i, j | 0 <= i < j < |r| ensures r[i].address != r[j].address {
      if j == |ws| {
        assert r[i] == ws[i];
      } else {
        assert r[i] == ws[i] && r[j] == ws[j];
      }
    }
  }
}
