/**
 The governance contract over any sequence of configurations, in plain terms: which settings are in
 force, how large the quorum is and was, and what the seed is made of.
 */
module GovernanceRuns {
  import opened Decimal
  import opened Options
  import opened Governance

  // ---------------------------------------------------------------- the settings a configuration gives

  /** The entry has the key and a readable number of at least the lower limit. */
  predicate Counts(e: Entry, key: string, minimum: nat, v: nat) {
    e.key == key && ParseUint64(e.value) == Some(v) && v >= minimum
  }

  /** The `k`-th entry is the last that counts, with the number `v`. */
  ghost predicate IsLast(ext: seq<Entry>, key: string, minimum: nat, k: nat, v: nat) {
    && k < |ext| && Counts(ext[k], key, minimum, v)
    && forall j, v' :: k < j < |ext| ==> !Counts(ext[j], key, minimum, v')
  }

  /** A setting is given the number of the last entry that counts, and left alone if none does. */
  lemma {:induction false} LastGivenExactly(ext: seq<Entry>, key: string, minimum: nat, k: nat, v: nat)
    ensures IsLast(ext, key, minimum, k, v) ==> LastGiven(ext, key, minimum) == v
    ensures (forall j, v' :: 0 <= j < |ext| ==> !Counts(ext[j], key, minimum, v')) ==>
              LastGiven(ext, key, minimum) == 0
    ensures LastGiven(ext, key, minimum) == 0 || LastGiven(ext, key, minimum) >= minimum
    decreases |ext|
  {
    if ext != [] {
      var front, last := ext[..|ext| - 1], ext[|ext| - 1];
      LastGivenExactly(front, key, minimum, k, v);
      if Gives(last, key, minimum) {
        assert Counts(last, key, minimum, ParseUint64(last.value).value);
      } else {
        assert !Counts(last, key, minimum, v);
      }
    }
  }

  /** Timeouts are not set below 4000 and 100 milliseconds, and no setting is taken back to zero. */
  predicate InForce(s: Settings) {
    s.roundTimeoutMill >= 4000 && s.intervalMill >= 100 && s.cachedLen > 0
  }

  lemma UpdateKeepsInForce(c: Contract, cfg: Config, c': Contract, changed: bool)
    requires Updated(c, cfg, c', changed) && InForce(c.settings)
    ensures InForce(c'.settings)
  {
    LastGivenExactly(cfg.ext, ROUND_TIMEOUT_MILL, MINIMUM_TIMEOUT_MILL, 0, 0);
    LastGivenExactly(cfg.ext, ROUND_TIMEOUT_INTERVAL_MILL, MINIMUM_INTERVAL_MILL, 0, 0);
  }

  /** Over any sequence of updates, settings once in force stay so. */
  lemma {:induction false} SettingsStayInForce(cs: seq<Contract>, cfgs: seq<Config>, i: nat, j: nat)
    requires IsRun(cs, cfgs) && i <= j < |cs| && InForce(cs[i].settings)
    ensures InForce(cs[j].settings)
    decreases j - i
  {
    if i < j {
      SettingsStayInForce(cs, cfgs, i, j - 1);
      assert Follows(cs, cfgs, j - 1);
      UpdateKeepsInForce(cs[j - 1], cfgs[j - 1], cs[j], Updated(cs[j - 1], cfgs[j - 1], cs[j], true));
    }
  }

  /** The number a configuration gives under `key`, or else the setting as it was. */
  ghost predicate Takes(ext: seq<Entry>, key: string, minimum: nat, before: nat, after: nat) {
    && (forall k: nat, v: nat :: IsLast(ext, key, minimum, k, v) ==> after == if v == 0 then before else v)
    && ((forall j, v :: 0 <= j < |ext| ==> !Counts(ext[j], key, minimum, v)) ==> after == before)
  }

  lemma TakesGiven(ext: seq<Entry>, key: string, minimum: nat, before: nat)
    ensures var v := LastGiven(ext, key, minimum);
            Takes(ext, key, minimum, before, if v == 0 then before else v)
  {
    LastGivenExactly(ext, key, minimum, 0, 0);
    forall k: nat, v: nat | IsLast(ext, key, minimum, k, v) ensures LastGiven(ext, key, minimum) == v {
      LastGivenExactly(ext, key, minimum, k, v);
    }
  }

  /** A new configuration sets what it gives and nothing else. */
  lemma SettingsAreThoseGiven(c: Contract, cfg: Config, c': Contract, changed: bool)
    requires Updated(c, cfg, c', changed) && c.configSequence != cfg.sequence
    ensures Takes(cfg.ext, "CachedLen", 0, c.settings.cachedLen, c'.settings.cachedLen)
    ensures Takes(cfg.ext, "HotstuffRoundTimeoutMill", 4000, c.settings.roundTimeoutMill, c'.settings.roundTimeoutMill)
    ensures Takes(cfg.ext, "HotstuffRoundTimeoutIntervalMill", 100, c.settings.intervalMill, c'.settings.intervalMill)
  {
    TakesGiven(cfg.ext, CACHED_LEN, 0, c.settings.cachedLen);
    TakesGiven(cfg.ext, ROUND_TIMEOUT_MILL, MINIMUM_TIMEOUT_MILL, c.settings.roundTimeoutMill);
    TakesGiven(cfg.ext, ROUND_TIMEOUT_INTERVAL_MILL, MINIMUM_INTERVAL_MILL, c.settings.intervalMill);
  }

  // ---------------------------------------------------------------- the quorum over any sequence of updates

  /** The number nearest to two thirds of the members, but at least three. */
  predicate IsQuorumOf(q: nat, n: nat) {
    q >= 3 && 3 * q >= 2 * n - 1 && (q > 3 ==> 3 * q <= 2 * n + 1)
  }

  predicate QuorumFits(c: Contract) {
    && c.n == c.validatorNum == |c.members| && c.validators == c.members
    && IsQuorumOf(c.minQuorumForQc, |c.members|)
  }

  /** Over any sequence of updates, quorum, numbers and validators fit the members. */
  lemma {:induction false} QuorumStaysFitting(cs: seq<Contract>, cfgs: seq<Config>, j: nat)
    requires IsRun(cs, cfgs) && j < |cs| && QuorumFits(cs[0])
    ensures QuorumFits(cs[j])
  {
    if j > 0 {
      QuorumStaysFitting(cs, cfgs, j - 1);
      assert Follows(cs, cfgs, j - 1);
    }
  }

  /** An update that changes nodes or settings keeps the quorum before it as the last one. */
  lemma LastQuorumIsPrevious(cs: seq<Contract>, cfgs: seq<Config>, j: nat)
    requires IsRun(cs, cfgs) && j + 1 < |cs| && QuorumFits(cs[0])
    requires NodeIds(cs[j].members) != NodeIds(cs[j + 1].members) || cs[j].settings != cs[j + 1].settings
    ensures IsQuorumOf(cs[j + 1].lastMinQuorumForQc, |cs[j].members|)
    ensures cs[j + 1].lastMinQuorumForQc == cs[j].minQuorumForQc
  {
    QuorumStaysFitting(cs, cfgs, j);
    assert Follows(cs, cfgs, j);
  }

  // ---------------------------------------------------------------- the seed

  /** The value of four digits to base 256. */
  function Four(w: bv8, x: bv8, y: bv8, z: bv8): nat {
    w as nat * 0x100_0000 + x as nat * 0x1_0000 + y as nat * 0x100 + z as nat
  }

  lemma BigEndianMore(b: seq<bv8>, x: bv8)
    ensures BigEndian(b + [x]) == BigEndian(b) * 256 + x as nat
  {
    assert (b + [x])[..|b|] == b;
  }

  lemma BigEndianTwo(b: seq<bv8>, x: bv8, y: bv8)
    ensures BigEndian(b + [x, y]) == BigEndian(b) * 0x1_0000 + x as nat * 0x100 + y as nat
  {
    assert b + [x, y] == (b + [x]) + [y];
    BigEndianMore(b, x);
    BigEndianMore(b + [x], y);
  }

  lemma BigEndianFour(b: seq<bv8>, w: bv8, x: bv8, y: bv8, z: bv8)
    ensures BigEndian(b + [w, x, y, z]) == BigEndian(b) * 0x1_0000_0000 + Four(w, x, y, z)
  {
    assert b + [w, x, y, z] == (b + [w, x]) + [y, z];
    BigEndianTwo(b, w, x);
    BigEndianTwo(b + [w, x], y, z);
  }

  lemma BigEndianEight(b: seq<bv8>)
    requires |b| == 8
    ensures BigEndian(b) == Four(b[0], b[1], b[2], b[3]) * 0x1_0000_0000 + Four(b[4], b[5], b[6], b[7])
  {
    var high := [b[0], b[1], b[2], b[3]];
    assert b == high + [b[4], b[5], b[6], b[7]] && high == [] + high;
    BigEndianFour([], b[0], b[1], b[2], b[3]);
    BigEndianFour(high, b[4], b[5], b[6], b[7]);
  }

  /** The digits of the seed, to base 256: its first eight bytes, each mixed with the one 24 places on. */
  lemma SeedDigits(bytes: seq<bv8>) returns (b: seq<bv8>)
    ensures |b| == 8 && forall i :: 0 <= i < 8 ==> b[i] == Padded(bytes, i) ^ Padded(bytes, i + 24)
    ensures SeedOf(bytes) == Four(b[0], b[1], b[2], b[3]) * 0x1_0000_0000 + Four(b[4], b[5], b[6], b[7])
  {
    b := seq(8, i requires 0 <= i < 8 => Padded(bytes, i) ^ Padded(bytes, i + 24));
    BigEndianEight(b);
  }

  /** Only the first eight bytes and the eight from the 24th on count. */
  lemma SeedIgnoresMiddle(bytes: seq<bv8>, bytes': seq<bv8>)
    requires forall i: nat :: i < 8 || 24 <= i < 32 ==> Padded(bytes, i) == Padded(bytes', i)
    ensures SeedOf(bytes) == SeedOf(bytes')
  {
    assert seq(8, i requires 0 <= i < 8 => Padded(bytes, i) ^ Padded(bytes, i + 24))
        == seq(8, i requires 0 <= i < 8 => Padded(bytes', i) ^ Padded(bytes', i + 24));
  }
}
