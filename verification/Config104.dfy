/** The flow control and timer parameters of an IEC 60870-5-104 endpoint. */
module Config104 {
  import opened Octets

  const SECOND: nat := 1_000_000_000
  const TIMEOUT_RESOLUTION: nat := 100_000_000

  /** Durations are nanoseconds, as in Go. */
  datatype Config = Config(t0: nat, k: nat, t1: nat, w: nat, t2: nat, t3: nat) {

    predicate InRange() {
      && SECOND <= t0 <= 255 * SECOND
      && 1 <= k <= 32767
      && SECOND <= t1 <= 255 * SECOND
      && 1 <= w <= 32767
      && SECOND <= t2 <= 255 * SECOND
      && SECOND <= t3 <= 48 * 3600 * SECOND
      && t2 < t1
    }

    /** Nothing given, or a value of the range. */
    static predicate Allowed(v: nat, lo: nat, hi: nat) {
      v == 0 || lo <= v <= hi
    }

    /** What the program makes of a value: the value, unless nothing was given. */
    static function Or(v: nat, default_: nat): nat {
      if v == 0 then default_ else v
    }

    /**
     * Config.Valid: zero stands for the default, everything else must be in range and is kept, and t2 must be
     * below t1, given or not: t1 up to 10 s is refused unless a smaller t2 is given.
     */
    function Valid(): (r: Result<Config, string>)
      ensures r.Ok? <==>
                && Allowed(t0, SECOND, 255 * SECOND) && Allowed(k, 1, 32767) && Allowed(t1, SECOND, 255 * SECOND)
                && Allowed(w, 1, 32767) && Allowed(t2, SECOND, 255 * SECOND) && Allowed(t3, SECOND, 172_800 * SECOND)
                && Or(t2, 10 * SECOND) < Or(t1, 15 * SECOND)
      ensures r.Ok? ==>
                && r.value.InRange()
                && r.value.t0 == Or(t0, 30 * SECOND) && r.value.k == Or(k, 12) && r.value.t1 == Or(t1, 15 * SECOND)
                && r.value.w == Or(w, 8) && r.value.t2 == Or(t2, 10 * SECOND) && r.value.t3 == Or(t3, 20 * SECOND)
      ensures InRange() ==> r == Ok(this)
    {
      var c := Config(
        if t0 == 0 then 30 * SECOND else t0,
        if k == 0 then 12 else k,
        if t1 == 0 then 15 * SECOND else t1,
        if w == 0 then 8 else w,
        if t2 == 0 then 10 * SECOND else t2,
        if t3 == 0 then 20 * SECOND else t3);
      if !(SECOND <= c.t0 <= 255 * SECOND) then Err("t0")
      else if !(1 <= c.k <= 32767) then Err("k")
      else if !(SECOND <= c.t1 <= 255 * SECOND) then Err("t1")
      else if !(1 <= c.w <= 32767) then Err("w")
      else if !(SECOND <= c.t2 <= 255 * SECOND) then Err("t2")
      else if !(SECOND <= c.t3 <= 48 * 3600 * SECOND) then Err("t3")
      else if c.t2 >= c.t1 then Err("t2 not below t1")
      else Ok(c)
    }
  }
}
