/** How much a violation costs: the condition's share of the stake, the tier's rate, and the correlation penalty. */
module SlashAmounts {
  import opened Arithmetic

  datatype Tier = Warning | Minor | Major | Critical

  /** An unknown severity counts as a warning. */
  function TierOf(severity: string): Tier
  {
    if severity == "minor" then Minor else if severity == "major" then Major else if severity == "critical"
        then Critical else Warning
  }

  function Rate(tier: Tier): (r: int)
    ensures 0 < r < 10000
  {
    match tier
    case Warning => 100
    case Minor => 500
    case Major => 1500
    case Critical => 3000
  }

  /** The tier of a cumulative offense count: the last threshold reached decides. */
  function TierFor(offenses: int): Tier
  {
    if offenses >= 6 then Critical else if offenses >= 4 then Major else if offenses >= 2 then Minor else Warning
  }

  const THRESHOLDS: seq<(int, Tier)> := [(1, Warning), (2, Minor), (4, Major), (6, Critical)]

  /** The tier after the first n thresholds. */
  function Reached(count: int, n: nat): Tier
    requires n <= |THRESHOLDS|
  {
    if n == 0 then Warning
    else if count >= THRESHOLDS[n - 1].0 then THRESHOLDS[n - 1].1
    else Reached(count, n - 1)
  }

  method TierForOffenseCount(count: int) returns (tier: Tier)
    ensures tier == TierFor(count)
  {
    tier := Warning;
    for i := 0 to |THRESHOLDS|
      invariant tier == Reached(count, i)
    {
      if count >= THRESHOLDS[i].0 {
        tier := THRESHOLDS[i].1;
      }
    }
    assert Reached(count, 2) == if count >= 2 then Minor else Warning;
  }

  function AtRisk(stake: int, allocationBps: int): int
  {
    stake * allocationBps / 10000
  }

  function Base(stake: int, allocationBps: int, severity: string): int
  {
    AtRisk(stake, allocationBps) * Rate(TierOf(severity)) / 10000
  }

  datatype Correlation = Correlation(scaling: real, cap: real)

  function Multiplier(c: Correlation, concurrent: int, total: int): real
    requires total > 0
  {
    var linear := 1.0 + c.scaling * (concurrent as real / total as real);
    if linear <= c.cap then linear else c.cap
  }

  /** Truncation toward zero. */
  function Truncate(x: real): int
  {
    if x >= 0.0 then x.Floor else -((-x).Floor)
  }

  function Scale(base: int, multiplier: real): int
  {
    Truncate(base as real * multiplier)
  }

  function SlashFor(c: Correlation, stake: int, allocationBps: int, severity: string, concurrent: int, total: int): int
  {
    var base := Base(stake, allocationBps, severity);
    var amount := if total > 0 && concurrent > 0 then Scale(base, Multiplier(c, concurrent, total)) else base;
    if amount <= AtRisk(stake, allocationBps) then amount else AtRisk(stake, allocationBps)
  }

  lemma Scaled(base: int, m: real)
    requires base >= 0 && m >= 1.0
    ensures Scale(base, m) >= base
  {
    var b := base as real;
    assert b * (m - 1.0) >= 0.0;
    assert b * m == b + b * (m - 1.0);
  }

  /** Correlation only raises a slash, and no slash exceeds the condition's share of the stake. */
  lemma SlashBounds(c: Correlation, stake: int, allocationBps: int, severity: string, concurrent: int, total: int)
    requires stake >= 0 && 0 <= allocationBps <= 10000 && c.scaling >= 0.0 && c.cap >= 1.0
    ensures 0 <= Base(stake, allocationBps, severity)
              <= SlashFor(c, stake, allocationBps, severity, concurrent, total)
              <= AtRisk(stake, allocationBps) <= stake
  {
    Fraction(stake, allocationBps, 10000);
    Fraction(AtRisk(stake, allocationBps), Rate(TierOf(severity)), 10000);
    hide AtRisk, Rate, TierOf;
    hide Scale, Multiplier;
    if total > 0 && concurrent > 0 {
      AtLeastOne(c, concurrent, total);
      Scaled(Base(stake, allocationBps, severity), Multiplier(c, concurrent, total));
    }
  }

  /**
   With concurrent slashes the base is multiplied by 1 + scaling * concurrent / total, at most the cap,
   rounded down, and cut at the share at risk.
   */
  lemma CorrelationMeans(c: Correlation, stake: int, allocationBps: int, severity: string, concurrent: int, total: int)
    requires stake >= 0 && 0 <= allocationBps <= 10000 && c.scaling >= 0.0 && c.cap >= 1.0 && concurrent > 0
        && total > 0
    ensures var base := Base(stake, allocationBps, severity);
            var linear := 1.0 + c.scaling * (concurrent as real / total as real);
            var raised := (base as real * (if linear <= c.cap then linear else c.cap)).Floor;
            var risk := stake * allocationBps / 10000;
            SlashFor(c, stake, allocationBps, severity, concurrent, total) == if raised <= risk then raised else risk
  {
    hide Base, Scale;
    SlashBounds(c, stake, allocationBps, severity, concurrent, total);
    AtLeastOne(c, concurrent, total);
    ScaleMeans(Base(stake, allocationBps, severity), Multiplier(c, concurrent, total));
  }

  lemma ScaleMeans(base: int, m: real)
    requires base >= 0 && m >= 0.0
    ensures Scale(base, m) == (base as real * m).Floor
  {
    ProductNonNegative(base as real, m);
  }

  lemma ProductNonNegative(a: real, b: real)
    requires a >= 0.0 && b >= 0.0
    ensures a * b >= 0.0
  {
  }

  /** Without concurrent slashes the base amount applies. */
  lemma BaseApplies(c: Correlation, stake: int, allocationBps: int, severity: string, total: int)
    requires stake >= 0 && 0 <= allocationBps <= 10000
    ensures 0 <= SlashFor(c, stake, allocationBps, severity, 0, total) == Base(stake, allocationBps, severity) <= stake
  {
    Fraction(stake, allocationBps, 10000);
    Fraction(AtRisk(stake, allocationBps), Rate(TierOf(severity)), 10000);
  }

  /**
   The base slash is 1, 5, 15 or 30 percent of the share at risk, rounded down; an unknown severity
   counts as a warning, and a graver one never costs less.
   */
  lemma SeverityAmounts(stake: int, allocationBps: int, severity: string)
    requires stake >= 0 && 0 <= allocationBps <= 10000
    ensures var risk := stake * allocationBps / 10000;
            && Base(stake, allocationBps, "warning") == risk / 100
            && Base(stake, allocationBps, "minor") == risk * 5 / 100
            && Base(stake, allocationBps, "major") == risk * 15 / 100
            && Base(stake, allocationBps, "critical") == risk * 30 / 100
            && (severity !in {"minor", "major", "critical"} ==> Base(stake, allocationBps, severity) == risk / 100)
            && risk / 100 <= risk * 5 / 100 <= risk * 15 / 100 <= risk * 30 / 100 <= risk <= stake
  {
    Fraction(stake, allocationBps, 10000);
    Named();
    var risk := AtRisk(stake, allocationBps);
    hide AtRisk, TierOf;
    assert risk * 100 / 10000 == risk / 100 && risk * 500 / 10000 == risk * 5 / 100;
    assert risk * 1500 / 10000 == risk * 15 / 100 && risk * 3000 / 10000 == risk * 30 / 100;
    if severity !in {"minor", "major", "critical"} {
      OtherSeverity(severity);
    }
  }

  lemma Named()
    ensures TierOf("warning") == Warning && TierOf("minor") == Minor
    ensures TierOf("major") == Major && TierOf("critical") == Critical
  {
    assert "warning"[0] == 'w' && "minor"[0] == 'm' && "major"[1] == 'a' && "minor"[1] == 'i' && "critical"[0] == 'c';
  }

  lemma OtherSeverity(severity: string)
    requires severity !in {"minor", "major", "critical"}
    ensures TierOf(severity) == Warning
  {
  }

  /** More stake slashed at the same time never lowers the slash. */
  lemma CorrelationMonotone(c: Correlation, stake: int, allocationBps: int, severity: string, less: int, more: int,
      total: int)
    requires stake >= 0 && 0 <= allocationBps <= 10000 && c.scaling >= 0.0 && c.cap >= 1.0 && less <= more
    ensures SlashFor(c, stake, allocationBps, severity, less, total) <= SlashFor(c, stake, allocationBps, severity,
        more, total)
  {
    hide Base, AtRisk, Scale, Multiplier;
    SlashBounds(c, stake, allocationBps, severity, less, total);
    SlashBounds(c, stake, allocationBps, severity, more, total);
    if total > 0 && less > 0 {
      AtLeastOne(c, less, total);
      MultiplierMonotone(c, less, more, total);
      ScaleMonotone(Base(stake, allocationBps, severity), Multiplier(c, less, total), Multiplier(c, more, total));
    }
  }

  lemma AtLeastOne(c: Correlation, concurrent: int, total: int)
    requires c.scaling >= 0.0 && c.cap >= 1.0 && concurrent > 0 && total > 0
    ensures Multiplier(c, concurrent, total) >= 1.0
  {
    assert c.scaling * (concurrent as real / total as real) >= 0.0;
  }

  lemma MultiplierMonotone(c: Correlation, less: int, more: int, total: int)
    requires c.scaling >= 0.0 && less <= more && total > 0
    ensures Multiplier(c, less, total) <= Multiplier(c, more, total)
  {
    var x, y := less as real / total as real, more as real / total as real;
    assert y - x == (more as real - less as real) / total as real >= 0.0;
    assert c.scaling * (y - x) >= 0.0;
    assert c.scaling * y == c.scaling * x + c.scaling * (y - x);
  }

  lemma ScaleMonotone(base: int, m: real, m': real)
    requires base >= 0 && 0.0 <= m <= m'
    ensures Scale(base, m) <= Scale(base, m')
  {
    var b := base as real;
    assert b * (m' - m) >= 0.0;
    assert b * m' == b * m + b * (m' - m);
    assert b * m >= 0.0;
  }
}
