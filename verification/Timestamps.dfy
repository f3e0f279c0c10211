/** Checkpoint numbering (pkg/metadata/timestamps.go): stamps keyed by their order and name. */
module Timestamps {
  import opened Types
  import opened Decimals

  function Key(n: nat, checkpoint: string): string {
    Decimal(n) + "-" + checkpoint
  }

  /** The keys that stamping makes, in order. */
  function Keys(checkpoints: seq<string>): seq<string> {
    seq(|checkpoints|, i requires 0 <= i < |checkpoints| => Key(i, checkpoints[i]))
  }

  /** A key up to its first dash is the printed number, so different numbers make different keys. */
  lemma KeyInjective(m: nat, a: string, n: nat, b: string)
    requires Key(m, a) == Key(n, b)
    ensures m == n && a == b
  {
    var x, y := Decimal(m), Decimal(n);
    DecimalIsDigits(m);
    DecimalIsDigits(n);
    var k := Key(m, a);
    assert k[|x|] == '-' && k[|y|] == '-';
    assert forall i | 0 <= i < |x| :: k[i] == x[i];
    assert forall i | 0 <= i < |y| :: k[i] == y[i];
    assert |x| == |y|;
    assert x == k[..|x|] && y == k[..|y|];
    assert a == k[|x| + 1..] && b == k[|y| + 1..];
  }

  /** A key reads as its number, a dash and its checkpoint. */
  lemma KeyReads(n: nat, checkpoint: string) returns (dash: nat)
    ensures dash < |Key(n, checkpoint)| && Key(n, checkpoint)[dash] == '-'
    ensures forall i | 0 <= i < dash :: '0' <= Key(n, checkpoint)[i] <= '9'
    ensures ParseBigInt(Key(n, checkpoint)[..dash]) == Some(n) && Key(n, checkpoint)[dash + 1..] == checkpoint
  {
    var digits, key := Decimal(n), Key(n, checkpoint);
    dash := |digits|;
    DecimalIsDigits(n);
    ParseDigits(digits);
    assert key[..dash] == digits && key[dash + 1..] == checkpoint;
    assert forall i | 0 <= i < dash :: key[i] == digits[i];
  }

  /** The keys are numbered 0, 1, 2 and so on, in the order of the stamps, and carry the checkpoints. */
  lemma KeysNumbered(checkpoints: seq<string>, i: nat) returns (dash: nat)
    requires i < |checkpoints|
    ensures |Keys(checkpoints)| == |checkpoints|
    ensures var key := Keys(checkpoints)[i];
            dash < |key| && ParseBigInt(key[..dash]) == Some(i) && key[dash] == '-' && key[dash + 1..] == checkpoints[i]
  {
    dash := KeyReads(i, checkpoints[i]);
  }

  lemma KeysDistinct(checkpoints: seq<string>)
    ensures forall i, j | 0 <= i < j < |checkpoints| :: Keys(checkpoints)[i] != Keys(checkpoints)[j]
  {
    forall i, j | 0 <= i < j < |checkpoints|
      ensures Keys(checkpoints)[i] != Keys(checkpoints)[j]
    {
      if Keys(checkpoints)[i] == Keys(checkpoints)[j] {
        KeyInjective(i, checkpoints[i], j, checkpoints[j]);
      }
    }
  }

  /** The map object that a request message and its response share. */
  class TimestampMap {
    var entries: map<string, int>
    /** The checkpoints stamped so far, in order. */
    ghost var stamped: seq<string>

    ghost predicate Valid()
      reads this
    {
      |entries| == |stamped| && entries.Keys == set k | k in Keys(stamped)
    }

    constructor ()
      ensures Valid() && stamped == []
    {
      entries, stamped := map[], [];
    }

    /**
     * The key counts the entries. On a map made by stamping, the count is the number of stamps and the key is new; on
     * any other map it may be taken, and its entry is then overwritten.
     */
    method Stamp(checkpoint: string, now: int)
      modifies this
      ensures entries == old(entries)[Key(|old(entries)|, checkpoint) := now]
      ensures stamped == old(stamped) + [checkpoint]
      ensures old(Valid()) ==> Valid() && Key(|old(entries)|, checkpoint) !in old(entries)
    {
      ghost var before := Keys(stamped);
      ghost var key := Key(|entries|, checkpoint);
      if Valid() && key in entries {
        ghost var i :| 0 <= i < |before| && before[i] == key;
        KeyInjective(i, stamped[i], |entries|, checkpoint);
      }
      entries := entries[Key(|entries|, checkpoint) := now];
      stamped := stamped + [checkpoint];
      if old(Valid()) {
        assert Keys(stamped) == before + [key];
      }
    }
  }
}
