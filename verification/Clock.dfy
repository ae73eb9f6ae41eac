module Clock {
  /** Saturating subtraction of clock readings. */
  function Since(now: nat, past: nat): nat {
    if now >= past then now - past else 0
  }
}
