/** The test of log truncation that every log was copied (ese/backup.cxx:3085-3088, 3535-3556): it compares the sum of
    the generations that were read to their end with the sum of all of them. */
module GenerationSum {
  function Sum(gens: seq<nat>): nat
  {
    if gens == [] then 0 else Sum(gens[..|gens| - 1]) + gens[|gens| - 1]
  }

  /** The sum of the generations from mic up to mac - 1. */
  function SumTo(mic: nat, mac: nat): nat
    requires mic <= mac
    decreases mac
  {
    if mic == mac then 0 else SumTo(mic, mac - 1) + mac - 1
  }

  /** cGenCopyMust. */
  function CopyMust(mic: nat, mac: nat): int
  {
    (mic + (mac - 1)) * ((mac - 1) - mic + 1) / 2
  }

  lemma {:induction false} CopyMustIsSum(mic: nat, mac: nat)
    requires mic < mac
    ensures CopyMust(mic, mac) == SumTo(mic, mac)
  {
    TwiceSum(mic, mac);
  }

  lemma {:induction false} TwiceSum(mic: nat, mac: nat)
    requires mic < mac
    ensures (mic + (mac - 1)) * ((mac - 1) - mic + 1) == 2 * SumTo(mic, mac)
    decreases mac
  {
    if mic + 1 < mac {
      TwiceSum(mic, mac - 1);
      OneMore(mic, mac - 1 - mic);
    }
  }

  lemma OneMore(mic: nat, n: nat)
    ensures (2 * mic + n) * (n + 1) == (2 * mic + n - 1) * n + 2 * (mic + n)
  {
  }

  ghost predicate Within(gens: seq<nat>, mic: nat, mac: nat) { forall i :: 0 <= i < |gens| ==> mic <= gens[i] < mac }

  ghost predicate Distinct(gens: seq<nat>) { forall i, j :: 0 <= i < j < |gens| ==> gens[i] != gens[j] }

  ghost predicate Covers(gens: seq<nat>, mic: nat, mac: nat) { forall g :: mic <= g < mac ==> g in gens }

  function Without(gens: seq<nat>, k: nat): seq<nat>
    requires k < |gens|
  {
    gens[..k] + gens[k + 1..]
  }

  lemma {:induction false} SumWithout(gens: seq<nat>, k: nat)
    requires k < |gens|
    ensures Sum(gens) == Sum(Without(gens, k)) + gens[k]
  {
    var last := |gens| - 1;
    if k == last {
      assert Without(gens, k) == gens[..last];
    } else {
      SumWithout(gens[..last], k);
      assert Without(gens, k)[..last - 1] == Without(gens[..last], k);
    }
  }

  /** The largest generation is among them, or all are smaller. */
  lemma {:induction false} AtMostAll(gens: seq<nat>, mic: nat, mac: nat)
    requires mic <= mac && Within(gens, mic, mac) && Distinct(gens)
    ensures Sum(gens) <= SumTo(mic, mac)
    ensures Sum(gens) == SumTo(mic, mac) && mic > 0 ==> Covers(gens, mic, mac)
    decreases mac
  {
    hide Within, Distinct, Covers, Without;
    if mic == mac {
      NoneWithin(gens, mic);
    } else if k :| 0 <= k < |gens| && gens[k] == mac - 1 {
      SumWithout(gens, k);
      WithoutLargest(gens, k, mic, mac);
      AtMostAll(Without(gens, k), mic, mac - 1);
    } else {
      BelowLargest(gens, mic, mac);
      AtMostAll(gens, mic, mac - 1);
    }
  }

  lemma NoneWithin(gens: seq<nat>, mic: nat)
    ensures Within(gens, mic, mic) ==> gens == []
    ensures Covers(gens, mic, mic)
  {
    if gens != [] { assert !(mic <= gens[0] < mic); }
  }

  lemma WithoutLargest(gens: seq<nat>, k: nat, mic: nat, mac: nat)
    requires mic < mac && Within(gens, mic, mac) && Distinct(gens) && k < |gens| && gens[k] == mac - 1
    ensures Within(Without(gens, k), mic, mac - 1) && Distinct(Without(gens, k))
    ensures Covers(Without(gens, k), mic, mac - 1) ==> Covers(gens, mic, mac)
  {
    var rest := Without(gens, k);
    forall i | 0 <= i < |rest| ensures mic <= rest[i] < mac - 1 {
      assert rest[i] == gens[if i < k then i else i + 1];
    }
    forall g | mic <= g < mac - 1 && g in rest
      ensures g in gens
    {
    }
  }

  lemma BelowLargest(gens: seq<nat>, mic: nat, mac: nat)
    requires mic < mac && Within(gens, mic, mac) && forall k :: 0 <= k < |gens| ==> gens[k] != mac - 1
    ensures Within(gens, mic, mac - 1)
  {
  }

  /** If no generation was counted twice, the test is exact. */
  lemma TestIsExact(gens: seq<nat>, mic: nat, mac: nat)
    requires 0 < mic < mac && Within(gens, mic, mac) && Distinct(gens)
    ensures Sum(gens) >= CopyMust(mic, mac) <==> Covers(gens, mic, mac)
  {
    CopyMustIsSum(mic, mac);
    AtMostAll(gens, mic, mac);
    if Covers(gens, mic, mac) { AtLeastAll(gens, mic, mac); }
  }

  lemma {:induction false} AtLeastAll(gens: seq<nat>, mic: nat, mac: nat)
    requires mic <= mac && Covers(gens, mic, mac)
    ensures Sum(gens) >= SumTo(mic, mac)
    decreases mac
  {
    if mic < mac {
      assert mac - 1 in gens;
      var k :| 0 <= k < |gens| && gens[k] == mac - 1;
      var rest := Without(gens, k);
      SumWithout(gens, k);
      forall g | mic <= g < mac - 1
        ensures g in rest
      {
        assert g in gens;
        var i :| 0 <= i < |gens| && gens[i] == g;
        assert rest[if i < k then i else i - 1] == g;
      }
      AtLeastAll(rest, mic, mac - 1);
    }
  }

  /** If a generation may be counted twice, the test can be fooled as soon as two are needed: one that is at least as
      large stands in for the lowest. */
  lemma TestIsFooled(mic: nat, mac: nat)
    requires 0 < mic
    ensures (forall gens: seq<nat> | Within(gens, mic, mac) && mic < mac && Sum(gens) >= CopyMust(mic, mac) ::
               Covers(gens, mic, mac)) <==> mac <= mic + 1
  {
    if mic + 1 < mac {
      var gens := seq(mac - mic, i requires 0 <= i => if i == 0 then mac - 1 else mic + i);
      CopyMustIsSum(mic, mac);
      Fooled(mic, mac, gens, mac);
      assert gens[..mac - mic] == gens;
      assert mic !in gens;
      assert Within(gens, mic, mac) && Sum(gens) >= CopyMust(mic, mac) && !Covers(gens, mic, mac);
    } else {
      forall gens: seq<nat> | Within(gens, mic, mac) && mic < mac && Sum(gens) >= CopyMust(mic, mac)
        ensures Covers(gens, mic, mac)
      {
        CopyMustIsSum(mic, mac);
        assert gens != [];
        assert gens[0] == mic;
      }
    }
  }

  lemma {:induction false} Fooled(mic: nat, mac: nat, gens: seq<nat>, up: nat)
    requires mic + 1 < mac && |gens| == mac - mic && mic <= up <= mac
    requires forall i :: 0 <= i < |gens| ==> gens[i] == if i == 0 then mac - 1 else mic + i
    ensures Sum(gens[..up - mic]) >= SumTo(mic, up)
    decreases up
  {
    if mic < up {
      Fooled(mic, mac, gens, up - 1);
      assert gens[..up - mic][..up - 1 - mic] == gens[..up - 1 - mic];
    }
  }
}
