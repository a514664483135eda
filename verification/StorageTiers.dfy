/** The price tiers of a bucket (aws/terraform/s3_bucket.go). */
module StorageTiers {
  import opened Numerals
  import opened Orders

  // The lower end of a price range, as the price is filtered by, and the
  // quantity billed in the range.
  datatype Tier = Tier(From: string, Quantity: real)

  function Quantities(tiers: seq<Tier>): (r: seq<real>)
    ensures |r| == |tiers|
  {
    seq(|tiers|, i requires 0 <= i < |tiers| => tiers[i].Quantity)
  }

  // Cut what lies above `from` at every threshold it passes.
  function Split(size: real, from: nat, thresholds: seq<nat>): seq<Tier>
    decreases |thresholds|
  {
    if thresholds == [] || size <= thresholds[0] as real then [Tier(Numeral(from), size - from as real)]
    else [Tier(Numeral(from), (thresholds[0] - from) as real)] + Split(size, thresholds[0], thresholds[1..])
  }

  predicate Increasing(from: nat, thresholds: seq<nat>)
    decreases |thresholds|
  {
    thresholds != [] ==> from < thresholds[0] && Increasing(thresholds[0], thresholds[1..])
  }

  // The part of (0, size] that lies between two bounds.
  function Overlap(size: real, low: real, high: real): real {
    if size <= low then 0.0 else if size <= high then size - low else high - low
  }

  function Low(from: nat, thresholds: seq<nat>, i: nat): nat
    requires i <= |thresholds|
  {
    if i == 0 then from else thresholds[i - 1]
  }

  /** Every range gets what lies in it, the last one everything above it, and
      ranges the size does not reach get nothing. */
  lemma {:induction false} SplitCovers(size: real, from: nat, thresholds: seq<nat>, i: nat)
    requires Increasing(from, thresholds) && size > from as real && i <= |thresholds|
    ensures i < |Split(size, from, thresholds)| <==> size > Low(from, thresholds, i) as real
    ensures i < |Split(size, from, thresholds)| ==>
              var tier := Split(size, from, thresholds)[i];
              && tier.From == Numeral(Low(from, thresholds, i))
              && tier.Quantity == Overlap(size, Low(from, thresholds, i) as real,
                                          if i < |thresholds| then thresholds[i] as real else size)
    decreases |thresholds|
  {
    if thresholds != [] && size > thresholds[0] as real && i > 0 {
      SplitCovers(size, thresholds[0], thresholds[1..], i - 1);
      assert Low(from, thresholds, i) == Low(thresholds[0], thresholds[1..], i - 1);
    } else if thresholds != [] && i > 0 {
      Above(from, thresholds, i - 1);
    }
  }

  lemma {:induction false} Above(from: nat, thresholds: seq<nat>, i: nat)
    requires Increasing(from, thresholds) && i < |thresholds|
    ensures thresholds[0] <= thresholds[i]
    decreases |thresholds|
  {
    if i > 0 {
      Above(thresholds[0], thresholds[1..], i - 1);
    }
  }

  /** Nothing is lost and nothing counted twice. */
  lemma {:induction false} SplitConserves(size: real, from: nat, thresholds: seq<nat>)
    ensures Sum(Quantities(Split(size, from, thresholds))) == size - from as real
    decreases |thresholds|
  {
    var tiers := Split(size, from, thresholds);
    if thresholds == [] || size <= thresholds[0] as real {
      assert Quantities(tiers) == [size - from as real];
      SumConcat([], [size - from as real]);
      SumOne(size - from as real);
    } else {
      var rest := Split(size, thresholds[0], thresholds[1..]);
      var first := (thresholds[0] - from) as real;
      assert Quantities(tiers) == [first] + Quantities(rest);
      SumOne(first);
      SumConcat([first], Quantities(rest));
      SplitConserves(size, thresholds[0], thresholds[1..]);
    }
  }

  lemma SumOne(x: real)
    ensures Sum([x]) == x
  {
    assert [x][..0] == [];
  }

  const STORAGE: seq<nat> := [51200, 512000]
  const OUTBOUND: seq<nat> := [10240, 51200, 153600]

  // Outbound data above the first range that stays below the last one.
  predicate Overcounted(outbound: real) {
    10240.0 < outbound <= 153600.0
  }

  // The split, but for the first range of an overcounted quantity.
  function OutboundTiers(size: real): seq<Tier> {
    if Overcounted(size) then Split(size, 0, OUTBOUND)[0 := Tier("0", 51200.0)] else Split(size, 0, OUTBOUND)
  }

  datatype S3Bucket = S3Bucket(storageGB: real, monthlyOutboundDataGB: real) {
    method StorageComponents() returns (storage: seq<Tier>)
      ensures storage == Split(storageGB, 0, STORAGE)
    {
      storage := [];
      StorageRanges(storageGB);
      if storageGB > 512000.0 {
        var extraSize := storageGB - 512000.0;
        storage := storage + [Tier("0", 51200.0)];
        storage := storage + [Tier("51200", 460800.0)];
        storage := storage + [Tier("512000", extraSize)];
      } else if storageGB > 51200.0 {
        var extraSize := storageGB - 51200.0;
        storage := storage + [Tier("0", 51200.0)];
        storage := storage + [Tier("51200", extraSize)];
      } else {
        storage := storage + [Tier("0", storageGB)];
      }
    }

    method OutboundComponents() returns (outbound: seq<Tier>)
      ensures outbound == OutboundTiers(monthlyOutboundDataGB)
    {
      outbound := [];
      OutboundRanges(monthlyOutboundDataGB);
      if monthlyOutboundDataGB > 153600.0 {
        var extraOut := monthlyOutboundDataGB - 153600.0;
        outbound := outbound + [Tier("0", 10240.0)];
        outbound := outbound + [Tier("10240", 40960.0)];
        outbound := outbound + [Tier("51200", 102400.0)];
        outbound := outbound + [Tier("153600", extraOut)];
      } else if monthlyOutboundDataGB > 51200.0 {
        var extraOut := monthlyOutboundDataGB - 51200.0;
        outbound := outbound + [Tier("0", 51200.0)];
        outbound := outbound + [Tier("10240", 40960.0)];
        outbound := outbound + [Tier("51200", extraOut)];
      } else if monthlyOutboundDataGB > 10240.0 {
        var extraOut := monthlyOutboundDataGB - 10240.0;
        outbound := outbound + [Tier("0", 51200.0)];
        outbound := outbound + [Tier("10240", extraOut)];
      } else {
        outbound := outbound + [Tier("0", monthlyOutboundDataGB)];
      }
    }

    /** The storage is split at its thresholds. So is the outbound data, but
        for the first range of an overcounted quantity, which is billed as 51200. */
    method Components() returns (storage: seq<Tier>, outbound: seq<Tier>)
      ensures storage == Split(storageGB, 0, STORAGE)
      ensures outbound == OutboundTiers(monthlyOutboundDataGB)
    {
      storage := StorageComponents();
      outbound := OutboundComponents();
    }
  }

  lemma Froms()
    ensures Numeral(0) == "0" && Numeral(10240) == "10240" && Numeral(51200) == "51200"
    ensures Numeral(153600) == "153600" && Numeral(512000) == "512000"
  {
    assert Numeral(10) == "10" && Numeral(51) == "51" && Numeral(15) == "15";
    assert Numeral(102) == "102" && Numeral(512) == "512" && Numeral(153) == "153";
    assert Numeral(1024) == "1024" && Numeral(5120) == "5120" && Numeral(1536) == "1536";
    assert Numeral(15360) == "15360" && Numeral(51200) == "51200";
  }

  lemma SplitLast(size: real, from: nat)
    ensures Split(size, from, []) == [Tier(Numeral(from), size - from as real)]
  {
  }

  lemma SplitNext(size: real, from: nat, to: nat, thresholds: seq<nat>)
    ensures Split(size, from, [to] + thresholds) ==
            if size <= to as real then [Tier(Numeral(from), size - from as real)]
            else [Tier(Numeral(from), (to - from) as real)] + Split(size, to, thresholds)
  {
    assert ([to] + thresholds)[1..] == thresholds;
  }

  lemma StorageSplit(size: real)
    ensures Split(size, 0, STORAGE) ==
            if size > 512000.0 then
              [Tier(Numeral(0), 51200.0), Tier(Numeral(51200), 460800.0), Tier(Numeral(512000), size - 512000.0)]
            else if size > 51200.0 then [Tier(Numeral(0), 51200.0), Tier(Numeral(51200), size - 51200.0)]
            else [Tier(Numeral(0), size)]
  {
    SplitLast(size, 512000);
    SplitNext(size, 51200, 512000, []);
    SplitNext(size, 0, 51200, [512000]);
    assert STORAGE == [51200] + [512000];
  }

  lemma OutboundTail(size: real)
    ensures Split(size, 10240, [51200, 153600]) ==
            if size > 153600.0 then
              [Tier(Numeral(10240), 40960.0), Tier(Numeral(51200), 102400.0), Tier(Numeral(153600), size - 153600.0)]
            else if size > 51200.0 then [Tier(Numeral(10240), 40960.0), Tier(Numeral(51200), size - 51200.0)]
            else [Tier(Numeral(10240), size - 10240.0)]
  {
    SplitLast(size, 153600);
    SplitNext(size, 51200, 153600, []);
    SplitNext(size, 10240, 51200, [153600]);
    assert [51200, 153600] == [51200] + [153600];
  }

  lemma OutboundSplit(size: real)
    ensures Split(size, 0, OUTBOUND) ==
            if size > 153600.0 then
              [Tier(Numeral(0), 10240.0), Tier(Numeral(10240), 40960.0), Tier(Numeral(51200), 102400.0),
               Tier(Numeral(153600), size - 153600.0)]
            else if size > 51200.0 then
              [Tier(Numeral(0), 10240.0), Tier(Numeral(10240), 40960.0), Tier(Numeral(51200), size - 51200.0)]
            else if size > 10240.0 then [Tier(Numeral(0), 10240.0), Tier(Numeral(10240), size - 10240.0)]
            else [Tier(Numeral(0), size)]
  {
    OutboundTail(size);
    SplitNext(size, 0, 10240, [51200, 153600]);
    assert OUTBOUND == [10240] + [51200, 153600];
  }

  lemma StorageRanges(size: real)
    ensures Split(size, 0, STORAGE) ==
            if size > 512000.0 then [Tier("0", 51200.0), Tier("51200", 460800.0), Tier("512000", size - 512000.0)]
            else if size > 51200.0 then [Tier("0", 51200.0), Tier("51200", size - 51200.0)]
            else [Tier("0", size)]
  {
    StorageSplit(size);
    Froms();
  }

  lemma OutboundRanges(size: real)
    ensures OutboundTiers(size) ==
            if size > 153600.0 then
              [Tier("0", 10240.0), Tier("10240", 40960.0), Tier("51200", 102400.0), Tier("153600", size - 153600.0)]
            else if size > 51200.0 then [Tier("0", 51200.0), Tier("10240", 40960.0), Tier("51200", size - 51200.0)]
            else if size > 10240.0 then [Tier("0", 51200.0), Tier("10240", size - 10240.0)]
            else [Tier("0", size)]
  {
    OutboundSplit(size);
    Froms();
  }

  /** The outbound ranges agree with the split, and add up to the quantity,
      exactly at or below 10240 and above 153600; in between they exceed it by 40960. */
  lemma OvercountExactly(size: real)
    ensures OutboundTiers(size) == Split(size, 0, OUTBOUND) <==> size <= 10240.0 || size > 153600.0
    ensures Sum(Quantities(OutboundTiers(size))) == size + if size <= 10240.0 || size > 153600.0 then 0.0 else 40960.0
  {
    var outbound := OutboundTiers(size);
    SplitConserves(size, 0, OUTBOUND);
    OutboundSplit(size);
    if Overcounted(size) {
      var split := Split(size, 0, OUTBOUND);
      assert Quantities(outbound) == Quantities(split)[0 := 51200.0];
      SumSplit(Quantities(split), 0);
      SumSplit(Quantities(outbound), 0);
      assert Quantities(outbound)[1..] == Quantities(split)[1..];
    }
  }
}
