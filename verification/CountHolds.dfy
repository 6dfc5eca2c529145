/** What a count leaves of the holds on a shelf (apps/api/src/count-holds.ts). */
module CountHolds {
  import opened Lists

  /** Reserved for open orders, and blocked in quarantine; as a trim, how much comes off each. */
  datatype Holds = Holds(reserved: real, blocked: real)

  function TrimHolds(found: real, holds: Holds): Holds {
    var onShelf := Max(found, 0.0);
    var reserved := Max(holds.reserved, 0.0);
    var blocked := Max(holds.blocked, 0.0);
    var overhang := reserved + blocked - onShelf;
    if overhang <= 0.0 then Holds(0.0, 0.0)
    else
      var fromBlocked := Min(blocked, overhang);
      var fromReserved := Min(reserved, overhang - fromBlocked);
      Holds(fromReserved, fromBlocked)
  }

  predicate IsEmptyTrim(trim: Holds) {
    trim.reserved == 0.0 && trim.blocked == 0.0
  }

  /** Exactly the overhang comes off, and no promise is cut while quarantine is left to cut. */
  lemma TrimTakesTheOverhang(found: real, holds: Holds)
    requires holds.reserved >= 0.0 && holds.blocked >= 0.0
    ensures
      var trim := TrimHolds(found, holds);
      && 0.0 <= trim.reserved <= holds.reserved
      && 0.0 <= trim.blocked <= holds.blocked
      && trim.reserved + trim.blocked == Max(holds.reserved + holds.blocked - Max(found, 0.0), 0.0)
      && (trim.reserved > 0.0 ==> trim.blocked == holds.blocked)
      && (IsEmptyTrim(trim) <==> holds.reserved + holds.blocked <= Max(found, 0.0))
  {
  }
}
