/** The settings every instance of one throttled queue shares. */
module ThrottleConfig {

  datatype Config = Config(window: real, limit: nat, moderate: bool, elastic: bool, elasticBuffer: int) {

    /** `int(self.window * 2)`, the life in seconds of both throttle keys. */
    function Ttl(): real {
      (2.0 * window).Floor as real
    }

    /** Moderation is dropped when only one item fits a window. */
    predicate Moderated() {
      moderate && limit != 1
    }

    /** The time that moderation keeps between two pops. */
    function Gap(): real
      requires limit != 0
    {
      window / limit as real
    }

    /** A positive limit, and keys that outlive the window they describe. */
    predicate Valid() {
      limit != 0 && 0.0 < window <= Ttl()
    }
  }

  /** The truncated life covers the window exactly for windows of half a second and more. */
  lemma TtlCoversWindow(c: Config)
    requires c.limit != 0 && 0.0 < c.window
    ensures c.Valid() <==> 0.5 <= c.window
  {
    var f := (2.0 * c.window).Floor;
    assert f as real <= 2.0 * c.window < f as real + 1.0;
    if c.window < 0.5 {
      assert f == 0;
    } else {
      assert 1 <= f;
    }
  }

  /** The life of the keys is twice the window, in whole seconds. */
  lemma TtlIsTwiceTheWindow(c: Config)
    ensures c.Ttl() <= 2.0 * c.window < c.Ttl() + 1.0 && c.Ttl().Floor as real == c.Ttl()
  {
  }

  /** As many gaps as the limit fill the window exactly. */
  lemma GapsFillWindow(c: Config)
    requires c.limit != 0
    ensures c.Gap() * c.limit as real == c.window
  {
  }

  /** So a time is no shorter than a gap exactly if the limit of such times is no shorter than the window. */
  lemma GapPassed(c: Config, d: real)
    requires c.limit != 0
    ensures c.Gap() <= d <==> c.window <= d * c.limit as real
  {
    var gap, n := c.Gap(), c.limit as real;
    GapsFillWindow(c);
    if gap <= d {
      ProductNotNegative(d - gap, n);
      assert (d - gap) * n == d * n - gap * n;
    } else {
      ProductPositive(gap - d, n);
      assert (gap - d) * n == gap * n - d * n;
    }
  }

  lemma ProductNotNegative(a: real, b: real)
    requires 0.0 <= a && 0.0 <= b
    ensures 0.0 <= a * b
  {
  }

  lemma ProductPositive(a: real, b: real)
    requires 0.0 < a && 0.0 < b
    ensures 0.0 < a * b
  {
  }

  lemma GapFitsWindow(c: Config)
    requires c.limit != 0 && 0.0 < c.window
    ensures 0.0 < c.Gap() <= c.window
  {
    GapPassed(c, 0.0);
    GapPassed(c, c.window);
    ProductNotNegative(c.limit as real - 1.0, c.window);
  }
}
