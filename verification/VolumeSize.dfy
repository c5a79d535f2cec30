/** Turning a requested capacity range into a number of cylinders. */
module VolumeSize {
  import opened Options

  const CylinderBytes := 1966080
  const DefaultVolumeBytes := 1073741824
  const MinVolumeBytes := 51118080
  const MaxVolumeBytes := 70368745881600
  const BytesPerGB := 1024 * 1024 * 1024

  /** Usable capacity in terabytes. */
  datatype Capacity = Capacity(total: real, used: real)

  /** What the array says of the storage pool: an SRP figure, or figures per
      emulation, or nothing; NoPool when none was named. */
  datatype Pool =
    | NoPool
    | Unreachable
    | Report(srp: Option<Capacity>, fba: Option<Capacity>, ckd: Option<Capacity>)

  datatype Result = Cylinders(n: int) | OutOfRange | PoolError

  /** Conversion of a floating-point number to an integer. */
  function Truncate(r: real): int {
    if r >= 0.0 then r.Floor else -((-r).Floor)
  }

  function TotalGB(c: Option<Capacity>): real { if c.Some? then c.value.total * 1024.0 else 0.0 }
  function UsedGB(c: Option<Capacity>): real { if c.Some? then c.value.used * 1024.0 else 0.0 }

  function AvailableBytes(pool: Pool): int
    requires !pool.Unreachable?
  {
    if pool.NoPool? then MaxVolumeBytes
    else if pool.srp.Some? then Truncate(TotalGB(pool.srp) - UsedGB(pool.srp)) * BytesPerGB
    else if pool.fba.Some? || pool.ckd.Some? then
      Truncate(TotalGB(pool.fba) + TotalGB(pool.ckd) - (UsedGB(pool.fba) + UsedGB(pool.ckd))) * BytesPerGB
    else MaxVolumeBytes
  }

  function ValidateVolSize(required: int, limit: int, pool: Pool): Result {
    if required < 0 || limit < 0 then OutOfRange
    else if pool.Unreachable? then PoolError
    else
      var wanted := if required == 0 then DefaultVolumeBytes else required;
      var avail := AvailableBytes(pool);
      var most := if limit == 0 then avail else limit;
      if most > avail || wanted > avail then OutOfRange else
        var least := if wanted < MinVolumeBytes then MinVolumeBytes else wanted;
        if most < least then OutOfRange else
          var n := if least % CylinderBytes > 0 then least / CylinderBytes + 1 else least / CylinderBytes;
          if n * CylinderBytes > most then OutOfRange else Cylinders(n)
  }

  /** The size a volume must at least have. */
  function Needed(required: int): int {
    if required == 0 then 1073741824 else if required < 51118080 then 51118080 else required
  }

  ghost predicate LeastCylinders(bytes: int, n: int) {
    n * CylinderBytes >= bytes && (n - 1) * CylinderBytes < bytes
  }

  /** What is left of a capacity, in gigabytes. */
  function LeftGB(c: Option<Capacity>): real {
    if c.Some? then 1024.0 * (c.value.total - c.value.used) else 0.0
  }

  /** A whole number of gigabytes that is left in the pool holds the bytes; a pool of
      which nothing is known holds the largest volume. */
  ghost predicate HasRoom(pool: Pool, bytes: int) {
    match pool
    case Report(Some(srp), _, _) => HoldsWhole(LeftGB(Some(srp)), bytes)
    case Report(None, Some(_), _) => HoldsWhole(LeftGB(pool.fba) + LeftGB(pool.ckd), bytes)
    case Report(None, _, Some(_)) => HoldsWhole(LeftGB(pool.fba) + LeftGB(pool.ckd), bytes)
    case _ => bytes <= MaxVolumeBytes
  }

  ghost predicate HoldsWhole(gigabytes: real, bytes: int) {
    exists g: int :: Below(g, gigabytes) && bytes <= g * 1073741824
  }

  predicate Below(g: int, gigabytes: real) { g as real <= gigabytes }

  /** The available bytes are those whole gigabytes. */
  lemma AvailableExactly(pool: Pool, bytes: int)
    requires !pool.Unreachable? && bytes > 0
    ensures bytes <= AvailableBytes(pool) <==> HasRoom(pool, bytes)
  {
    if pool.Report? {
      if pool.srp.Some? {
        TruncatedHolds(LeftGB(pool.srp), bytes);
      } else if pool.fba.Some? || pool.ckd.Some? {
        TruncatedHolds(LeftGB(pool.fba) + LeftGB(pool.ckd), bytes);
      }
    }
  }

  lemma TruncatedHolds(r: real, bytes: int)
    requires bytes > 0
    ensures bytes <= Truncate(r) * BytesPerGB <==> HoldsWhole(r, bytes)
  {
    if bytes <= Truncate(r) * BytesPerGB {
      assert Below(Truncate(r), r);
    }
    if g: int :| Below(g, r) && bytes <= g * 1073741824 {
      assert g > 0 && g <= Truncate(r);
    }
  }

  ghost predicate Fits(bytes: int, limit: int, pool: Pool) {
    HasRoom(pool, bytes) && (limit > 0 ==> bytes <= limit && HasRoom(pool, limit))
  }

  lemma LeastIsUnique(bytes: int, m: int, n: int)
    requires LeastCylinders(bytes, m) && LeastCylinders(bytes, n)
    ensures m == n
  {}

  /** The size is n cylinders exactly when n is the least number of cylinders
      holding what is needed and that many fit the limit and the pool; anything
      else is refused, as an error of the pool exactly when that cannot be asked. */
  lemma AcceptedExactly(required: int, limit: int, pool: Pool, n: int)
    ensures ValidateVolSize(required, limit, pool) == Cylinders(n) <==>
      && required >= 0 && limit >= 0 && !pool.Unreachable?
      && LeastCylinders(Needed(required), n) && Fits(n * CylinderBytes, limit, pool)
    ensures ValidateVolSize(required, limit, pool) == PoolError <==> required >= 0 && limit >= 0 && pool.Unreachable?
  {
    if required >= 0 && limit >= 0 && !pool.Unreachable? {
      var least := Needed(required);
      var m := if least % CylinderBytes > 0 then least / CylinderBytes + 1 else least / CylinderBytes;
      assert LeastCylinders(least, m);
      if LeastCylinders(least, n) { LeastIsUnique(least, m, n); }
      AvailableExactly(pool, m * CylinderBytes);
      if limit > 0 { AvailableExactly(pool, limit); }
    }
  }

  /** Asking again for the size that was allotted gives the same size. */
  lemma Resubmitted(required: int, limit: int, pool: Pool)
    requires ValidateVolSize(required, limit, pool).Cylinders?
    ensures var n := ValidateVolSize(required, limit, pool).n;
      ValidateVolSize(n * CylinderBytes, limit, pool) == Cylinders(n)
  {
    var n := ValidateVolSize(required, limit, pool).n;
    AcceptedExactly(required, limit, pool, n);
    assert Needed(n * CylinderBytes) == n * CylinderBytes;
    AcceptedExactly(n * CylinderBytes, limit, pool, n);
  }

  /** Without limit and pool, as when a volume is expanded, every size up to the
      maximum is accepted and nothing above it. */
  lemma UnlimitedAcceptsExactly(required: int)
    ensures ValidateVolSize(required, 0, NoPool).Cylinders? <==> 0 <= required <= MaxVolumeBytes
  {
    assert MaxVolumeBytes == 35791395 * CylinderBytes;
    if 0 <= required <= MaxVolumeBytes {
      var least := Needed(required);
      var m := if least % CylinderBytes > 0 then least / CylinderBytes + 1 else least / CylinderBytes;
      assert LeastCylinders(least, m) && m <= 35791395;
      AcceptedExactly(required, 0, NoPool, m);
    }
  }
}
