/** Prices as Go values whose attribute map is shared by every copy, and their
    in-place addition (price/price.go). */
module LivePrices {
  import opened Wrappers

  class Attributes {
    var entries: map<string, string>

    constructor (entries: map<string, string>)
      ensures this.entries == entries
    {
      this.entries := entries;
    }
  }

  // A copied price has its own unit, currency and value, and the same map.
  datatype LivePrice = LivePrice(Unit: string, Currency: string, Value: real, Attributes: Attributes?)

  datatype AddError = MismatchingUnit | MismatchingCurrency

  function Mismatch(p: LivePrice, q: LivePrice): Option<AddError> {
    if p.Unit != q.Unit then Some(MismatchingUnit)
    else if p.Currency != q.Currency then Some(MismatchingCurrency)
    else None
  }

  datatype AddOutcome = Done | Mismatched(error: AddError) | NilMapWrite

  function Entries(p: LivePrice): map<string, string>
    reads p.Attributes
  {
    if p.Attributes == null then map[] else p.Attributes.entries
  }

  // The variable that Add is called on.
  class PriceVar {
    var p: LivePrice

    constructor (p: LivePrice)
      ensures this.p == p
    {
      this.p := p;
    }

    // Go cannot write to a nil map: a receiver without one crashes when it is
    // given an attribute, after its value has changed.
    method Add(pr: LivePrice) returns (outcome: AddOutcome)
      modifies this, p.Attributes
      ensures old(p.Unit) != pr.Unit ==> outcome == Mismatched(MismatchingUnit)
      ensures old(p.Unit) == pr.Unit && old(p.Currency) != pr.Currency ==> outcome == Mismatched(MismatchingCurrency)
      ensures old(p.Unit) == pr.Unit && old(p.Currency) == pr.Currency ==>
                outcome == if old(p.Attributes) == null && pr.Attributes != null && old(pr.Attributes.entries) != map[]
                           then NilMapWrite else Done
      ensures p == if outcome.Mismatched? then old(p) else old(p).(Value := old(p.Value) + pr.Value)
      ensures p.Attributes != null ==>
                p.Attributes.entries == if outcome.Mismatched? || pr.Attributes == null then old(p.Attributes.entries)
                                        else old(p.Attributes.entries) + old(pr.Attributes.entries)
    {
      var err := Mismatch(p, pr);
      if err.Some? {
        return Mismatched(err.value);
      }
      p := p.(Value := p.Value + pr.Value);
      var entries := Entries(pr);
      var rest := entries.Keys;
      while rest != {}
        invariant p == old(p).(Value := old(p).Value + pr.Value)
        invariant rest <= entries.Keys && (p.Attributes == null ==> rest == entries.Keys)
        invariant Entries(p) == old(Entries(p)) + (entries - rest)
        modifies p.Attributes
      {
        var k :| k in rest;
        if p.Attributes == null {
          return NilMapWrite;
        }
        p.Attributes.entries := p.Attributes.entries[k := entries[k]];
        rest := rest - {k};
      }
      outcome := Done;
    }
  }
}
