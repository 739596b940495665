/** The two roundings of the service, on naturals. JavaScript computes them in
    floating point (Math.round of a quotient, and Math.round of a product with
    the float 0.18); here they are exact rationals rounded half up, which is
    what Math.round does for non-negative values. */
module Pricing {

  /** The tax rate, in percent. */
  const GstPercent: nat := 18

  /** Math.round(subtotal / nights): the average nightly price of a dated summary. */
  function AveragePerNight(subtotal: nat, nights: nat): (r: nat)
    requires nights > 0
    ensures 2 * r * nights <= 2 * subtotal + nights < 2 * r * nights + 2 * nights
  {
    (2 * subtotal + nights) / (2 * nights)
  }

  /** Math.round(subtotal * 0.18): the GST on a subtotal. */
  function Gst(subtotal: nat): (r: nat)
    ensures 200 * r <= 2 * GstPercent * subtotal + 100 < 200 * r + 200
  {
    (GstPercent * subtotal + 50) / 100
  }

  /** The total of an available quote: the subtotal with its GST added. */
  function TotalWithGst(subtotal: nat): nat {
    subtotal + Gst(subtotal)
  }

  lemma AverageExample()
    ensures AveragePerNight(600, 3) == 200
    ensures AveragePerNight(601, 2) == 301
    ensures AveragePerNight(600, 7) == 86
  {
  }

  lemma GstExample()
    ensures Gst(600) == 108
    ensures Gst(25) == 5
  {
  }
}
