/**
 `format_volume` (hot_symbol.py, lines 88-95): a quote volume shown in
 units of a hundred million (亿), of ten thousand (万), or as it is.
 The two-decimal rendering is not modelled; the result is the scaled
 amount and the unit it is shown in.
 */
module VolumeFormat {

  const HundredMillion: real := 100000000.0
  const TenThousand: real := 10000.0

  datatype Magnitude = Yi | Wan | Units

  /** The divisor of each unit. */
  function Divisor(m: Magnitude): real
  {
    match m
    case Yi => HundredMillion
    case Wan => TenThousand
    case Units => 1.0
  }

  /** The suffix written after the amount. */
  function Suffix(m: Magnitude): string
  {
    match m
    case Yi => "\U{4EBF}"
    case Wan => "\U{4E07}"
    case Units => ""
  }

  datatype ScaledVolume = ScaledVolume(amount: real, magnitude: Magnitude)

  /**
   The bucket is chosen by two inclusive thresholds, and the amount shown,
   multiplied back by the unit's divisor, is the volume itself.
   */
  function FormatVolume(volume: real): (r: ScaledVolume)
    ensures r.magnitude == Yi <==> volume >= HundredMillion
    ensures r.magnitude == Wan <==> TenThousand <= volume < HundredMillion
    ensures r.magnitude == Units <==> volume < TenThousand
    ensures r.amount * Divisor(r.magnitude) == volume
    ensures r.magnitude != Units ==> 1.0 <= r.amount
    ensures r.magnitude == Wan ==> r.amount < TenThousand
  {
    if volume >= HundredMillion then ScaledVolume(volume / HundredMillion, Yi)
    else if volume >= TenThousand then ScaledVolume(volume / TenThousand, Wan)
    else ScaledVolume(volume, Units)
  }

  /** A larger volume never lands in a smaller unit. */
  lemma FormatVolumeMonotone(v: real, w: real)
    requires v <= w
    ensures Divisor(FormatVolume(v).magnitude) <= Divisor(FormatVolume(w).magnitude)
  {
  }

  /** The three examples of the report's volume column. */
  lemma FormatVolumeExamples()
    ensures FormatVolume(150000000.0) == ScaledVolume(1.5, Yi)
    ensures FormatVolume(25000.0) == ScaledVolume(2.5, Wan)
    ensures FormatVolume(500.0) == ScaledVolume(500.0, Units)
    ensures FormatVolume(HundredMillion) == ScaledVolume(1.0, Yi)
    ensures FormatVolume(TenThousand) == ScaledVolume(1.0, Wan)
  {
  }
}
