/**
 * TimerId (wind/base/TimerId.h): a timer's sequence number paired with the
 * address of the Timer object. Addresses are modelled as naturals, 0 being
 * the null pointer.
 */
module TimerId {
  const U64: nat := 0x1_0000_0000_0000_0000

  datatype TimerId = TimerId(id: nat, timer: nat)

  /** Both fields fit their 64-bit C types. */
  predicate InRange(t: TimerId)
  {
    t.id < U64 && t.timer < U64
  }

  /** TimerId(uint64_t id, Timer *timer) stores both unchanged. */
  function Make(id: nat, timer: nat): (t: TimerId)
    ensures t.id == id && t.timer == timer
  {
    TimerId(id, timer)
  }

  /** operator== compares both fields. */
  predicate Eq(a: TimerId, b: TimerId)
    ensures Eq(a, b) <==> a == b
  {
    a.id == b.id && a.timer == b.timer
  }

  /** operator< as written: either field smaller. */
  predicate Less(a: TimerId, b: TimerId)
    ensures Less(a, b) ==> a != b
  {
    a.id < b.id || a.timer < b.timer
  }

  /** The corrected order: by id, then by address. */
  predicate LexLess(a: TimerId, b: TimerId)
    ensures LexLess(a, b) ==> a != b && Less(a, b)
  {
    a.id < b.id || (a.id == b.id && a.timer < b.timer)
  }

  /** std::hash<TimerId>: id XOR the address, as 64-bit words. */
  function Hash(t: TimerId): (h: bv64)
    requires InRange(t)
    ensures t.timer == 0 ==> h == t.id as bv64
  {
    (t.id as bv64) ^ (t.timer as bv64)
  }

  /** operator== is equality of the pair, hence an equivalence. */
  lemma EqIsEquality(a: TimerId, b: TimerId)
    ensures Eq(a, b) <==> a == b
  {
  }

  /** Equal ids hash equally, as the unordered containers keyed on TimerId need. */
  lemma HashRespectsEq(a: TimerId, b: TimerId)
    requires InRange(a) && InRange(b) && Eq(a, b)
    ensures Hash(a) == Hash(b)
  {
  }

  /** As written, the order is irreflexive. */
  lemma LessIrreflexive(a: TimerId)
    ensures !Less(a, a)
  {
  }

  /**
   * As written, the order is not asymmetric: a timer with the smaller id at
   * the larger address and one with the larger id at the smaller address are
   * each below the other.
   */
  lemma LessNotAsymmetric()
    ensures var a := TimerId(1, 0x2000); var b := TimerId(2, 0x1000);
      Less(a, b) && Less(b, a)
  {
  }

  /** For any such pair the as-written order holds both ways. */
  lemma LessBothWays(a: TimerId, b: TimerId)
    requires a.id < b.id && b.timer < a.timer
    ensures Less(a, b) && Less(b, a) && !Eq(a, b)
  {
  }

  /** The corrected order is a strict total order on TimerIds. */
  lemma LexLessStrictTotal(a: TimerId, b: TimerId, c: TimerId)
    ensures !LexLess(a, a)
    ensures LexLess(a, b) ==> !LexLess(b, a)
    ensures LexLess(a, b) && LexLess(b, c) ==> LexLess(a, c)
    ensures a != b ==> LexLess(a, b) || LexLess(b, a)
  {
  }

  /** Where the as-written order is asymmetric on a pair, the corrected one agrees with it. */
  lemma LexLessAgrees(a: TimerId, b: TimerId)
    requires Less(a, b) && !Less(b, a)
    ensures LexLess(a, b)
  {
  }
}
