/** Gateway refunds are prorated: the gateway charged a fee-inclusive amount, and a
    refund of part of the nominal amount returns the matching share, rounded down. */
module Proration {
  import opened Basics

  /** (gatewayAmount * amount) / total on 64-bit integers, truncating. */
  function Share(gatewayAmount: int, amount: int, total: int): int
    requires total > 0
  {
    var p := Wrap64(gatewayAmount * amount);
    if p >= 0 then p / total else -(-p / total)
  }

  function Sum(xs: seq<int>): int {
    if xs == [] then 0 else Sum(xs[..|xs| - 1]) + xs[|xs| - 1]
  }

  function Shares(g: int, xs: seq<int>, total: int): (r: seq<int>)
    requires total > 0
    ensures |r| == |xs|
  {
    seq(|xs|, i requires 0 <= i < |xs| => Share(g, xs[i], total))
  }

  lemma ShareBounds(g: int, a: int, total: int)
    requires 0 <= g && 0 <= a && 0 < total && g * a <= INT64_MAX
    ensures total * Share(g, a, total) <= g * a <= total * Share(g, a, total) + total - 1
  {
    assert 0 <= g * a;
  }

  /** The quotient of the wrapped product, rounded toward zero. */
  lemma ShareTruncates(g: int, a: int, total: int)
    requires total > 0
    ensures var p, r := Wrap64(g * a), Share(g, a, total);
      if p >= 0 then 0 <= r && total * r <= p < total * r + total
      else r <= 0 && total * r - total < p <= total * r
  {
    var p := Wrap64(g * a);
    hide Wrap64;
    Quotient(if p >= 0 then p else -p, total);
  }

  lemma Quotient(p: nat, total: int)
    requires total > 0
    ensures 0 <= p / total && total * (p / total) <= p < total * (p / total) + total
  {
    assert p == total * (p / total) + p % total;
  }

  /** A full refund returns exactly the charge if and only if the product fits in 64 bits. */
  lemma FullRefundExactIff(g: int, total: int)
    requires 0 <= g <= INT64_MAX && 0 < total <= INT64_MAX
    ensures Share(g, total, total) == g <==> g * total <= INT64_MAX
  {
    hide Share;
    if g * total <= INT64_MAX {
      FullRefundReturnsCharge(g, total);
    } else {
      ShareTruncates(g, total, total);
      hide Wrap64;
      assert g > 0;
    }
  }

  /** Adding one more piece, with only the arithmetic in view. */
  lemma AddPiece(g: int, total: int, paid: int, refunded: int, share: int, amount: int, n: nat)
    requires total * paid <= g * refunded <= total * paid + n * (total - 1)
    requires total * share <= g * amount <= total * share + (total - 1)
    ensures total * (paid + share) <= g * (refunded + amount) <= total * (paid + share) + (n + 1) * (total - 1)
  {
  }

  /** Rounding down loses less than one unit for each refund. */
  lemma {:induction false} SharesBounds(g: int, xs: seq<int>, total: int)
    requires 0 <= g && 0 < total
    requires forall i :: 0 <= i < |xs| ==> xs[i] >= 0 && g * xs[i] <= INT64_MAX
    ensures total * Sum(Shares(g, xs, total)) <= g * Sum(xs)
            <= total * Sum(Shares(g, xs, total)) + |xs| * (total - 1)
  {
    hide Share;
    if xs == [] {
    } else {
      var n := |xs| - 1;
      assert Shares(g, xs, total)[..n] == Shares(g, xs[..n], total);
      SharesBounds(g, xs[..n], total);
      ShareBounds(g, xs[n], total);
      AddPiece(g, total, Sum(Shares(g, xs[..n], total)), Sum(xs[..n]), Share(g, xs[n], total), xs[n], n);
    }
  }

  /** Dividing the bounds by the total. */
  lemma CancelTotal(g: int, total: int, paid: int, refunded: int, n: nat)
    requires 0 <= g && 0 < total && refunded <= total
    requires total * paid <= g * refunded <= total * paid + n * (total - 1)
    ensures paid <= g
    ensures refunded == total && n >= 1 ==> g - (n - 1) <= paid
  {
    var gap := g - paid;
    assert g * refunded <= g * total by { AtMost(g, refunded, total); }
    assert total * paid <= total * g;
    if paid > g {
      AtMost(total, g + 1, paid);
    }
    if refunded == total && n >= 1 {
      assert total * gap <= n * (total - 1);
      if gap >= n {
        AtMost(total, n, gap);
      }
    }
  }

  lemma AtMost(c: int, x: int, y: int)
    requires 0 <= c && x <= y
    ensures c * x <= c * y
  {
  }

  /** Whatever is refunded in pieces never exceeds the charge; pieces that make up the
      whole fall short of it by at most one unit less than their number. */
  lemma SharesWithinCharge(g: int, xs: seq<int>, total: int)
    requires 0 <= g && 0 < total
    requires forall i :: 0 <= i < |xs| ==> xs[i] >= 0 && g * xs[i] <= INT64_MAX
    requires Sum(xs) <= total
    ensures Sum(Shares(g, xs, total)) <= g
    ensures Sum(xs) == total && |xs| >= 1 ==> g - (|xs| - 1) <= Sum(Shares(g, xs, total))
  {
    hide Share;
    SharesBounds(g, xs, total);
    CancelTotal(g, total, Sum(Shares(g, xs, total)), Sum(xs), |xs|);
  }

  /** A single full refund returns exactly what was charged. */
  lemma FullRefundReturnsCharge(g: int, total: int)
    requires 0 <= g && 0 < total && g * total <= INT64_MAX
    ensures Share(g, total, total) == g
  {
    hide Share;
    ShareBounds(g, total, total);
    CancelTotal(g, total, Share(g, total, total), total, 1);
  }
}
