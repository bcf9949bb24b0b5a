/** The set of characters that the string matcher keeps as 256 bits. */
module CharBits {

  function Bit(k: nat): bv8
    requires k < 8
  {
    if k == 0 then 1 else if k == 1 then 2 else if k == 2 then 4 else if k == 3 then 8
    else if k == 4 then 16 else if k == 5 then 32 else if k == 6 then 64 else 128
  }

  predicate IsSet(w: bv8, k: nat)
    requires k < 8
  {
    w & Bit(k) != 0
  }

  lemma OrSets(w: bv8, k: nat)
    requires k < 8
    ensures forall j: nat :: j < 8 ==> (IsSet(w | Bit(k), j) <==> j == k || IsSet(w, j))
  {
  }

  lemma NotFlips(w: bv8)
    ensures forall j: nat :: j < 8 ==> (IsSet(!w, j) <==> !IsSet(w, j))
  {
  }

  class BitSet {
    const bit: array<bv8>

    ghost predicate Valid() {
      bit.Length == 32
    }

    predicate Has(c: char)
      requires Valid() && c as int < 256
      reads bit
    {
      IsSet(bit[c as int / 8], c as int % 8)
    }

    ghost function Members(): set<char>
      requires Valid()
      reads bit
    {
      set c: char | c as int < 256 && Has(c)
    }

    constructor ()
      ensures Valid() && fresh(bit)
    {
      bit := new bv8[32](_ => 0);
    }

    method Zero()
      requires Valid()
      modifies bit
      ensures Members() == {}
    {
      for i := 0 to 32
        invariant forall j :: 0 <= j < i ==> bit[j] == 0
      {
        bit[i] := 0;
      }
    }

    method Set(c: char)
      requires Valid() && c as int < 256
      modifies bit
      ensures Members() == old(Members()) + {c}
    {
      var at, k := c as int / 8, c as int % 8;
      OrSets(bit[at], k);
      bit[at] := bit[at] | Bit(k);
      forall d: char | d as int < 256
        ensures Has(d) <==> d == c || old(Has(d))
      {
        SameBit(c as int, d as int);
      }
    }

    method Rev()
      requires Valid()
      modifies bit
      ensures Members() == set c: char | c as int < 256 && c !in old(Members())
    {
      for i := 0 to 32
        invariant forall j :: 0 <= j < i ==> bit[j] == !old(bit[j])
        invariant forall j :: i <= j < 32 ==> bit[j] == old(bit[j])
      {
        bit[i] := !bit[i];
      }
      forall d: char | d as int < 256
        ensures Has(d) <==> !old(Has(d))
      {
        NotFlips(old(bit[d as int / 8]));
      }
    }
  }

  lemma SameBit(c: nat, d: nat)
    ensures c == d <==> c / 8 == d / 8 && c % 8 == d % 8
  {
  }
}
