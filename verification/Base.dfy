/** Values shared by every contract of the covenant system. */
module Base {

  datatype Option<+T> = None | Some(value: T)

  datatype Result<+T, +E> = Ok(value: T) | Err(error: E)

  /** Addresses and denominations are opaque text; only equality matters here. */
  type Addr = string
  type Denom = string

  datatype Coin = Coin(denom: Denom, amount: nat)

  /** A bank transfer of one coin. */
  datatype Send = Send(to: Addr, coin: Coin)

  /** Total amount of `d` in a list of coins. */
  function AmountOf(coins: seq<Coin>, d: Denom): nat {
    if coins == [] then 0
    else (if coins[0].denom == d then coins[0].amount else 0) + AmountOf(coins[1..], d)
  }

  /** Total amount of `d` leaving in a list of transfers. */
  function SentOf(sends: seq<Send>, d: Denom): nat {
    if sends == [] then 0
    else (if sends[0].coin.denom == d then sends[0].coin.amount else 0) + SentOf(sends[1..], d)
  }

  /** Total amount of `d` sent to one address. */
  function SentTo(sends: seq<Send>, a: Addr, d: Denom): nat {
    if sends == [] then 0
    else (if sends[0].to == a && sends[0].coin.denom == d then sends[0].coin.amount else 0) + SentTo(sends[1..], a, d)
  }

  lemma {:induction false} SentToConcat(s: seq<Send>, t: seq<Send>, a: Addr, d: Denom)
    ensures SentTo(s + t, a, d) == SentTo(s, a, d) + SentTo(t, a, d)
  {
    if s == [] {
      assert s + t == t;
    } else {
      assert (s + t)[1..] == s[1..] + t;
      SentToConcat(s[1..], t, a, d);
    }
  }

  lemma {:induction false} SentOfConcat(s: seq<Send>, t: seq<Send>, d: Denom)
    ensures SentOf(s + t, d) == SentOf(s, d) + SentOf(t, d)
  {
    if s == [] {
      assert s + t == t;
    } else {
      assert (s + t)[1..] == s[1..] + t;
      SentOfConcat(s[1..], t, d);
    }
  }

  ghost predicate NoDuplicates<T>(s: seq<T>) {
    forall i, j :: 0 <= i < j < |s| ==> s[i] != s[j]
  }

  lemma PrependNoDuplicates<T>(t: T, s: seq<T>)
    requires NoDuplicates(s) && t !in s
    ensures NoDuplicates([t] + s)
  {
    assert forall i :: 1 <= i <= |s| ==> ([t] + s)[i] == s[i - 1];
  }
}
