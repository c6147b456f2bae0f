/**
 Capacity ranges. A CSI request asks for at least `required` and at most `limit` bytes, where a bound
 that is not positive is unset; the driver turns it into one size.
 */
module Capacity {
  import opened Common

  const GiB: int := 1024 * 1024 * 1024
  const MinBlock := 1 * GiB
  const MaxBlock := 4096 * GiB

  datatype Range = Range(required: int, limit: int)

  datatype Size = Bytes(n: int) | OutOfRange

  function ValidateCapacityRange(cr: Option<Range>, minBytes: int, maxBytes: int): Size {
    if cr.None? then Bytes(minBytes)
    else
      var required, limit := cr.value.required, cr.value.limit;
      if required <= 0 && limit <= 0 then Bytes(minBytes)
      else
        var lo := if required <= 0 then limit else required;
        var hi := if limit <= 0 then required else limit;
        if 0 < required && 0 < limit && limit < required then OutOfRange
        else if hi < minBytes then OutOfRange
        else if lo > maxBytes then OutOfRange
        else if required > 0 then Bytes(required)
        else Bytes(limit)
  }

  // ----- what is accepted, without the code's branches -----

  ghost predicate Unset(cr: Option<Range>) {
    cr.None? || (cr.value.required <= 0 && cr.value.limit <= 0)
  }

  /** The sizes a request with some bound set asks for; a single bound asks for exactly that size. */
  ghost predicate Asks(cr: Range, bytes: int) {
    && (0 < cr.required ==> cr.required <= bytes)
    && (0 < cr.limit ==> bytes <= cr.limit)
    && (cr.limit <= 0 ==> bytes == cr.required)
    && (cr.required <= 0 ==> bytes == cr.limit)
  }

  ghost predicate Satisfiable(cr: Option<Range>, minBytes: int, maxBytes: int) {
    Unset(cr) || exists bytes :: Asks(cr.value, bytes) && minBytes <= bytes <= maxBytes
  }

  /** The request's lower bound reaches below the minimum although a supported size would satisfy it. */
  predicate Undershoots(cr: Option<Range>, minBytes: int) {
    cr.Some? && 0 < cr.value.required < minBytes <= cr.value.limit
  }

  /**
   A request is accepted exactly when some supported size satisfies it. The size chosen is the
   least one requested and under the maximum; it is below the minimum exactly for requests that undershoot.
   */
  lemma CapacityAcceptance(cr: Option<Range>, minBytes: int, maxBytes: int)
    requires 0 < minBytes <= maxBytes
    ensures var r := ValidateCapacityRange(cr, minBytes, maxBytes);
      && (r.Bytes? <==> Satisfiable(cr, minBytes, maxBytes))
      && (r.Bytes? ==> 0 < r.n <= maxBytes)
      && (r.Bytes? && !Unset(cr) ==> Asks(cr.value, r.n))
      && (r.Bytes? && !Unset(cr) ==> forall bytes :: Asks(cr.value, bytes) ==> r.n <= bytes)
      && (r.Bytes? && Unset(cr) ==> r.n == minBytes)
      && (r.Bytes? ==> (r.n < minBytes <==> Undershoots(cr, minBytes)))
  {
    if !Unset(cr) {
      var c := cr.value;
      var lo := if c.required <= 0 then c.limit else c.required;
      var best := if lo < minBytes then minBytes else lo;
      if ValidateCapacityRange(cr, minBytes, maxBytes).Bytes? {
        assert Asks(c, best);
      }
    }
  }

  /** The obvious claim, that an accepted size is supported, fails: one byte up to two GiB yields one byte. */
  lemma AcceptedBelowMinimum()
    ensures ValidateCapacityRange(Some(Range(1, 2 * GiB)), MinBlock, MaxBlock) == Bytes(1) && 1 < MinBlock
  {
  }

  function InGiB(bytes: int): int { bytes / GiB }

  /**
   The whole GiB sent to the backend never exceed the maximum, lose less than one GiB of what was
   asked, and fall below the minimum size exactly for requests that undershoot.
   */
  lemma FlooredSize(cr: Option<Range>, minGiB: int, maxGiB: int)
    requires 0 < minGiB <= maxGiB
    ensures var r := ValidateCapacityRange(cr, minGiB * GiB, maxGiB * GiB);
      r.Bytes? ==>
        && 0 <= InGiB(r.n) <= maxGiB
        && InGiB(r.n) * GiB <= r.n < (InGiB(r.n) + 1) * GiB
        && (InGiB(r.n) < minGiB <==> Undershoots(cr, minGiB * GiB))
  {
    CapacityAcceptance(cr, minGiB * GiB, maxGiB * GiB);
  }
}
