/**
 * The environment / auxiliary-vector array that spawn_helper hands to the
 * VE stack initialiser: the environment pointers, NULL, the (type, value)
 * pairs of the auxv entries placed on the VE stack, NULL. Every slot is a
 * 64-bit word (a `char *` in the source); NULL is 0.
 */
module EnvAuxv {
  import opened Common

  /** Auxv types are examined from 1 up to, but not including, this bound. */
  const AuxvTypeLimit: nat := 32

  /** Slots reserved after the environment: NULL, 31 (type, value) pairs, NULL. */
  const ReservedSlots: nat := 1 + 2 * (AuxvTypeLimit - 1) + 1

  /**
   * The Linux numbers of the AT_* types the switch in spawn_helper places on
   * the VE stack: AT_EXECFD .. AT_ENTRY, AT_UID .. AT_PLATFORM, AT_CLKTCK,
   * AT_SECURE, AT_RANDOM, AT_EXECFN. The builder itself is stated for any set.
   */
  const PlacedAuxvTypes: set<u64> := {2, 3, 4, 5, 6, 7, 8, 9, 11, 12, 13, 14, 15, 17, 23, 25, 31}

  /** The environment entries: `environ` up to, not including, its NULL terminator. */
  function EnvEntries(environ: seq<u64>): (e: seq<u64>)
    ensures e <= environ && 0 !in e
    ensures |e| == |environ| || environ[|e|] == 0
  {
    if environ == [] || environ[0] == 0 then [] else [environ[0]] + EnvEntries(environ[1..])
  }

  /** The slots type `t` contributes: its (type, value) pair when listed and non-zero. */
  function AuxvEntry(listed: set<u64>, auxval: u64 -> u64, t: u64): seq<u64>
  {
    if t in listed && auxval(t) != 0 then [t, auxval(t)] else []
  }

  /** The pairs contributed by the types lo .. hi-1, in increasing type order. */
  function AuxvPairs(listed: set<u64>, auxval: u64 -> u64, lo: nat, hi: nat): (p: seq<u64>)
    requires hi <= AuxvTypeLimit
    ensures |p| % 2 == 0
    ensures |p| <= if lo <= hi then 2 * (hi - lo) else 0
    decreases hi
  {
    if hi <= lo then []
    else AuxvPairs(listed, auxval, lo, hi - 1) + AuxvEntry(listed, auxval, (hi - 1) as u64)
  }

  /** The contents spawn_helper writes into env_array, slot by slot. */
  function EnvImage(environ: seq<u64>, listed: set<u64>, auxval: u64 -> u64): seq<u64>
  {
    EnvEntries(environ) + [0] + AuxvPairs(listed, auxval, 1, AuxvTypeLimit) + [0]
  }

  /** The type of the k-th pair of `p`. */
  function PairType(p: seq<u64>, k: nat): u64
    requires 2 * k < |p|
  {
    p[2 * k]
  }

  /** The value of the k-th pair of `p`. */
  function PairValue(p: seq<u64>, k: nat): u64
    requires 2 * k + 1 < |p|
  {
    p[2 * k + 1]
  }

  /** The k-th pair of `p` is (t, v). */
  predicate IsPairOf(p: seq<u64>, k: nat, t: u64, v: u64)
  {
    2 * k + 1 < |p| && PairType(p, k) == t && PairValue(p, k) == v
  }

  /** Every pair is a listed type in [lo, hi) together with its non-zero auxv value. */
  lemma {:induction false} AuxvPairsSound(listed: set<u64>, auxval: u64 -> u64, lo: nat, hi: nat, k: nat)
    requires lo <= hi <= AuxvTypeLimit
    requires 2 * k + 1 < |AuxvPairs(listed, auxval, lo, hi)|
    ensures var p := AuxvPairs(listed, auxval, lo, hi);
      && lo <= PairType(p, k) as int < hi
      && PairType(p, k) in listed
      && PairValue(p, k) == auxval(PairType(p, k)) != 0
    decreases hi
  {
    var p := AuxvPairs(listed, auxval, lo, hi);
    var q := AuxvPairs(listed, auxval, lo, hi - 1);
    var e := AuxvEntry(listed, auxval, (hi - 1) as u64);
    assert p == q + e;
    if 2 * k + 1 < |q| {
      AuxvPairsSound(listed, auxval, lo, hi - 1, k);
      assert PairType(p, k) == PairType(q, k) && PairValue(p, k) == PairValue(q, k);
    } else {
      assert 2 * k == |q| && e != [];
      assert PairType(p, k) == e[0] && PairValue(p, k) == e[1];
    }
  }

  /** The pair types increase strictly, so each type appears at most once. */
  lemma {:induction false} AuxvPairsIncreasing(listed: set<u64>, auxval: u64 -> u64, lo: nat, hi: nat, k: nat)
    requires lo <= hi <= AuxvTypeLimit
    requires 2 * k + 3 < |AuxvPairs(listed, auxval, lo, hi)|
    ensures var p := AuxvPairs(listed, auxval, lo, hi);
      PairType(p, k) < PairType(p, k + 1)
    decreases hi
  {
    var p := AuxvPairs(listed, auxval, lo, hi);
    var q := AuxvPairs(listed, auxval, lo, hi - 1);
    var e := AuxvEntry(listed, auxval, (hi - 1) as u64);
    assert p == q + e;
    if 2 * k + 3 < |q| {
      AuxvPairsIncreasing(listed, auxval, lo, hi - 1, k);
      assert p[2 * k] == q[2 * k] && p[2 * k + 2] == q[2 * k + 2];
    } else {
      assert 2 * k + 2 == |q| && e == [(hi - 1) as u64, auxval((hi - 1) as u64)];
      AuxvPairsSound(listed, auxval, lo, hi - 1, k);
      assert p[2 * k] == q[2 * k] && p[2 * k + 2] == e[0];
    }
  }

  /** Every listed type in [lo, hi) whose auxv value is non-zero has its pair. */
  lemma {:induction false} AuxvPairsComplete(listed: set<u64>, auxval: u64 -> u64, lo: nat, hi: nat, t: u64)
    requires hi <= AuxvTypeLimit
    requires lo <= t as int < hi && t in listed && auxval(t) != 0
    ensures exists k: nat :: IsPairOf(AuxvPairs(listed, auxval, lo, hi), k, t, auxval(t))
    decreases hi
  {
    var p := AuxvPairs(listed, auxval, lo, hi);
    var q := AuxvPairs(listed, auxval, lo, hi - 1);
    assert p == q + AuxvEntry(listed, auxval, (hi - 1) as u64);
    if t as int == hi - 1 {
      var k: nat := |q| / 2;
      assert 2 * k == |q|;
      assert IsPairOf(p, k, t, auxval(t));
    } else {
      AuxvPairsComplete(listed, auxval, lo, hi - 1, t);
      var k: nat :| IsPairOf(q, k, t, auxval(t));
      assert PairType(p, k) == PairType(q, k) && PairValue(p, k) == PairValue(q, k);
      assert IsPairOf(p, k, t, auxval(t));
    }
  }

  /** With the switch's own list, a non-zero AT_PAGESZ (6) reaches the VE stack as a pair. */
  lemma PageSizePlaced(auxval: u64 -> u64)
    requires auxval(6) != 0
    ensures exists k: nat :: IsPairOf(AuxvPairs(PlacedAuxvTypes, auxval, 1, AuxvTypeLimit), k, 6, auxval(6))
  {
    AuxvPairsComplete(PlacedAuxvTypes, auxval, 1, AuxvTypeLimit, 6);
  }

  /** With the switch's own list, an unlisted type such as AT_IGNORE (1) never does. */
  lemma UnlistedNotPlaced(auxval: u64 -> u64, k: nat)
    requires 2 * k + 1 < |AuxvPairs(PlacedAuxvTypes, auxval, 1, AuxvTypeLimit)|
    ensures PairType(AuxvPairs(PlacedAuxvTypes, auxval, 1, AuxvTypeLimit), k) != 1
  {
    AuxvPairsSound(PlacedAuxvTypes, auxval, 1, AuxvTypeLimit, k);
  }

  /** The image fits the reserved area: the final index never exceeds env_num. */
  lemma EnvImageFits(environ: seq<u64>, listed: set<u64>, auxval: u64 -> u64)
    ensures |EnvImage(environ, listed, auxval)| <= |EnvEntries(environ)| + ReservedSlots
  {
  }

  /** The first loop of spawn_helper: count the environment entries before NULL. */
  method CountEnv(environ: seq<u64>) returns (envNum: nat)
    requires 0 in environ
    ensures envNum == |EnvEntries(environ)|
  {
    envNum := 0;
    while environ[envNum] != 0
      invariant envNum < |environ| && 0 in environ[envNum..]
      invariant 0 !in environ[..envNum]
      decreases |environ| - envNum
    {
      envNum := envNum + 1;
    }
    assert environ[..envNum] <= environ;
    assert EnvEntries(environ) == environ[..envNum];
  }

  /** The second loop: copy the environment entries to the front of env_array. */
  method CopyEnv(environ: seq<u64>, envArray: array<u64>) returns (envIndex: nat)
    requires 0 in environ && |EnvEntries(environ)| <= envArray.Length
    modifies envArray
    ensures envIndex == |EnvEntries(environ)|
    ensures envArray[..envIndex] == EnvEntries(environ)
  {
    ghost var entries := EnvEntries(environ);
    envIndex := 0;
    var envp := 0;
    while environ[envp] != 0
      invariant envp <= |entries| && envIndex == envp
      invariant envArray[..envIndex] == entries[..envp]
      decreases |entries| - envp
    {
      envArray[envIndex] := environ[envp];
      envIndex := envIndex + 1;
      envp := envp + 1;
    }
    assert entries[..envp] == entries;
  }

  /** One more type examined appends that type's entry. */
  lemma AuxvPairsStep(listed: set<u64>, auxval: u64 -> u64, t: nat)
    requires 1 <= t < AuxvTypeLimit
    ensures AuxvPairs(listed, auxval, 1, t + 1) == AuxvPairs(listed, auxval, 1, t) + AuxvEntry(listed, auxval, t as u64)
  {
  }

  /** Store a NULL at `index`, leaving the slots before it as they were. */
  method PutNull(envArray: array<u64>, index: nat)
    requires index < envArray.Length
    modifies envArray
    ensures envArray[..index + 1] == old(envArray[..index]) + [0]
  {
    envArray[index] := 0;
  }

  /** Store one (type, value) pair at `index`, leaving the slots before it as they were. */
  method PutPair(envArray: array<u64>, index: nat, t: u64, v: u64)
    requires index + 2 <= envArray.Length
    modifies envArray
    ensures envArray[..index + 2] == old(envArray[..index]) + [t, v]
  {
    envArray[index] := t;
    envArray[index + 1] := v;
  }

  /** The third loop: append the listed, non-zero auxv entries as (type, value) pairs. */
  method CopyAuxv(listed: set<u64>, auxval: u64 -> u64, envArray: array<u64>, start: nat)
    returns (envIndex: nat)
    requires start + 2 * (AuxvTypeLimit - 1) <= envArray.Length
    modifies envArray
    ensures envIndex == start + |AuxvPairs(listed, auxval, 1, AuxvTypeLimit)|
    ensures envArray[..envIndex] == old(envArray[..start]) + AuxvPairs(listed, auxval, 1, AuxvTypeLimit)
  {
    ghost var prefix := envArray[..start];
    ghost var written: seq<u64> := [];
    envIndex := start;
    var auxvType: u64 := 1;
    while auxvType < 32
      invariant 1 <= auxvType <= 32
      invariant written == AuxvPairs(listed, auxval, 1, auxvType as nat)
      invariant envIndex == start + |written|
      invariant envArray[..envIndex] == prefix + written
    {
      AuxvPairsStep(listed, auxval, auxvType as nat);
      ghost var entry := AuxvEntry(listed, auxval, auxvType);
      if auxvType in listed {
        var auxvVal := auxval(auxvType);
        if auxvVal != 0 {
          PutPair(envArray, envIndex, auxvType, auxvVal);
          envIndex := envIndex + 2;
        }
      }
      written := written + entry;
      auxvType := auxvType + 1;
    }
  }

  /**
   * The env/auxv part of spawn_helper: count the environment, allocate
   * env_num slots, then fill them in place through env_index.
   */
  method BuildEnvArray(environ: seq<u64>, listed: set<u64>, auxval: u64 -> u64)
    returns (envArray: array<u64>, envIndex: nat)
    requires 0 in environ
    ensures fresh(envArray)
    ensures envArray.Length == |EnvEntries(environ)| + ReservedSlots
    ensures envIndex <= envArray.Length
    ensures envArray[..envIndex] == EnvImage(environ, listed, auxval)
  {
    var envNum := CountEnv(environ);
    envNum := envNum + ReservedSlots;
    envArray := new u64[envNum];
    envIndex := FillEnvArray(environ, listed, auxval, envArray);
  }

  /** The filling half of BuildEnvArray: entries, NULL, auxv pairs, NULL. */
  method FillEnvArray(environ: seq<u64>, listed: set<u64>, auxval: u64 -> u64, envArray: array<u64>)
    returns (envIndex: nat)
    requires 0 in environ && envArray.Length == |EnvEntries(environ)| + ReservedSlots
    modifies envArray
    ensures envIndex <= envArray.Length
    ensures envArray[..envIndex] == EnvImage(environ, listed, auxval)
  {
    ghost var entries := EnvEntries(environ);
    ghost var pairs := AuxvPairs(listed, auxval, 1, AuxvTypeLimit);
    envIndex := CopyEnv(environ, envArray);
    PutNull(envArray, envIndex);
    envIndex := envIndex + 1;
    assert envArray[..envIndex] == entries + [0];
    envIndex := CopyAuxv(listed, auxval, envArray, envIndex);
    ghost var filled := envArray[..envIndex];
    assert filled == entries + [0] + pairs;
    PutNull(envArray, envIndex);
    envIndex := envIndex + 1;
    assert envArray[..envIndex] == filled + [0];
  }
}
