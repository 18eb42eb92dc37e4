/**
 * The capital is split evenly between the fixed deposit and the Nifty 50
 * fund; at the end of the horizon the Nifty fund's gains over its
 * principal are taxed at a flat percentage, and only positive gains are.
 */
module Allocation {
  import opened Arith

  /** The two halves of the capital. */
  datatype Halves = Halves(fdPrincipal: real, niftyPrincipal: real)

  /** The 50:50 split: two equal halves that make up the whole capital. */
  function Allocate(capital: real): (s: Halves)
    ensures s.fdPrincipal + s.niftyPrincipal == capital
    ensures s.fdPrincipal == s.niftyPrincipal
  {
    Halves(capital / 2.0, capital / 2.0)
  }

  /** The Nifty fund's gains: its gross value less its principal (negative after a loss). */
  function Gains(gross: real, principal: real): real {
    gross - principal
  }

  /** The tax: `taxRate` percent of the gains when they are positive, nothing otherwise. */
  function Tax(gains: real, taxRate: real): real {
    if gains > 0.0 then gains * (taxRate / 100.0) else 0.0
  }

  /** The net value of the Nifty fund: the gross value less the tax on its gains. */
  function Net(gross: real, principal: real, taxRate: real): real {
    gross - Tax(Gains(gross, principal), taxRate)
  }

  /** A fund that did not gain pays no tax, whatever the rate: its net value is its gross value. */
  lemma NoGainNoTax(gross: real, principal: real, taxRate: real)
    requires gross <= principal
    ensures Tax(Gains(gross, principal), taxRate) == 0.0
    ensures Net(gross, principal, taxRate) == gross
  {
  }

  /**
   * After a gain, the net value is the principal plus the share of the
   * gain the tax leaves; with a rate between 0 and 100 percent it lies
   * between the principal and the gross value.
   */
  lemma NetAfterGain(gross: real, principal: real, taxRate: real)
    requires gross > principal
    ensures Net(gross, principal, taxRate) == principal + (gross - principal) * (1.0 - taxRate / 100.0)
    ensures 0.0 <= taxRate <= 100.0 ==> principal <= Net(gross, principal, taxRate) <= gross
  {
    var g := gross - principal;
    assert g * (taxRate / 100.0) + g * (1.0 - taxRate / 100.0) == g;
    if 0.0 <= taxRate <= 100.0 {
      MulNonNeg(g, taxRate / 100.0);
      MulNonNeg(g, 1.0 - taxRate / 100.0);
    }
  }

  /**
   * With a rate between 0 and 100 percent, a larger gross value never
   * gives a smaller net value.
   */
  lemma NetMonotone(g1: real, g2: real, principal: real, taxRate: real)
    requires 0.0 <= taxRate <= 100.0 && g1 <= g2
    ensures Net(g1, principal, taxRate) <= Net(g2, principal, taxRate)
  {
    if g2 > principal {
      NetAfterGain(g2, principal, taxRate);
      if g1 > principal {
        NetAfterGain(g1, principal, taxRate);
        var keep := 1.0 - taxRate / 100.0;
        var d := g2 - g1;
        assert keep >= 0.0 && d >= 0.0;
        assert d * keep >= 0.0;
        assert (g2 - principal) * keep - (g1 - principal) * keep == d * keep;
      }
    }
  }
}
