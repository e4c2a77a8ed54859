/**
 * Dates, times of day and instants as Python's `datetime` module represents
 * them, restricted to what the scheduling code uses.
 */
module Calendario {
  import opened Opcion

  /** `date.min` (0001-01-01) and `date.max` (9999-12-31) as proleptic Gregorian ordinals. */
  const MinOrdinal: int := 1
  const MaxOrdinal: int := 3652059

  /** A `date`, as its ordinal `date.toordinal()`. */
  type Fecha = d: int | MinOrdinal <= d <= MaxOrdinal witness MinOrdinal

  const SegundosPorDia: int := 86400

  /** A `time` of day, in whole seconds after midnight. */
  type Hora = t: int | 0 <= t < SegundosPorDia

  /** A naive `datetime`, in microseconds after 0001-01-01 00:00. */
  type Instante = int

  const MicrosegundosPorHora: int := 3600 * 1000000

  /** `d.weekday()`: Monday is 0 and Sunday is 6; ordinal 1 is a Monday. */
  function DiaSemana(d: Fecha): (w: int)
    ensures 0 <= w < 7
    ensures d == MinOrdinal ==> w == 0
  {
    (d + 6) % 7
  }

  /** Consecutive dates have consecutive weekdays, Sunday (6) followed by Monday (0). */
  lemma DiaSiguiente(d: Fecha)
    requires d < MaxOrdinal
    ensures DiaSemana(d + 1) == (DiaSemana(d) + 1) % 7
  {
  }

  /**
   * `d + timedelta(days=n)`: the date `n` days after `d`, or None where
   * Python raises OverflowError because the result leaves `date.min..date.max`.
   */
  function SumarDias(d: Fecha, n: int): (r: Option<Fecha>)
    ensures r.Some? <==> MinOrdinal <= d + n <= MaxOrdinal
    ensures r.Some? ==> r.value - d == n
  {
    if MinOrdinal <= d + n <= MaxOrdinal then Some(d + n) else None
  }

  /**
   * `(datetime.combine(date.min, t) + timedelta(minutes=m)).time()`: the time
   * of day `m` minutes after `t`, wrapping past midnight; None where the
   * intermediate `datetime` falls before `date.min` or after `date.max`
   * (Python raises OverflowError).
   */
  function SumarMinutos(t: Hora, m: int): (r: Option<Hora>)
    ensures r.None? <==> t + m * 60 < 0 || t + m * 60 >= MaxOrdinal * SegundosPorDia
    ensures 0 <= t + m * 60 < SegundosPorDia ==> r == Some(t + m * 60)
    ensures r.Some? ==> exists dias :: 0 <= dias < MaxOrdinal && r.value == t + m * 60 - dias * SegundosPorDia
  {
    var s := t + m * 60;
    if s < 0 || s >= MaxOrdinal * SegundosPorDia then None
    else
      assert s == s / SegundosPorDia * SegundosPorDia + s % SegundosPorDia;
      Some(s % SegundosPorDia)
  }
}
