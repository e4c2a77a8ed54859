/**
 * The availability generator `generar_disponibilidades` of app.py, as the
 * code is written: the `return` sits inside the outer day loop and the day
 * increment inside the working-day test, so only the first day is ever
 * looked at.
 */
module Disponibilidad {
  import opened Opcion
  import opened Calendario

  /** One element of the Python list that `eval(dias_no_laborales)` yields. */
  datatype Literal = Entero(i: int) | Texto(s: string)

  /** The `Configuracion` row; `duracionTurno` is in minutes. */
  datatype Configuracion = Configuracion(
    diasNoLaborales: seq<Literal>,
    limiteTurnos: int,
    horarioInicio: Hora,
    horarioFin: Hora,
    duracionTurno: int)

  /** The column defaults: "[]", 90 days, 09:00:00, 17:00:00, 30 minutes. */
  function ConfiguracionPorDefecto(): Configuracion
  {
    Configuracion([], 90, 9 * 3600, 17 * 3600, 30)
  }

  /** One `{"fecha": ..., "hora": ...}` entry of the generated list. */
  datatype Horario = Horario(fecha: Fecha, hora: Hora)

  /**
   * What a call returns: the list, `None` when the day loop never runs
   * (a negative horizon), or OverflowError from date arithmetic.
   */
  datatype Resultado = Horarios(horarios: seq<Horario>) | Ninguno | Desbordamiento

  /** `str(w)` for a weekday number. */
  function TextoDia(w: int): (s: string)
    requires 0 <= w < 7
    ensures |s| == 1 && '0' <= s[0] <= '6'
    ensures s[0] as int - '0' as int == w
  {
    [('0' as int + w) as char]
  }

  /** The test of app.py line 37: `str(d.weekday())` is an element of the list. */
  predicate NoLaborable(d: Fecha, c: Configuracion)
  {
    Texto(TextoDia(DiaSemana(d))) in c.diasNoLaborales
  }

  /**
   * The inner loop ends: either it never runs, or each step moves forward
   * by a positive duration without wrapping past midnight.
   */
  predicate Termina(c: Configuracion)
  {
    c.horarioInicio >= c.horarioFin
    || (c.duracionTurno > 0 && c.horarioFin + c.duracionTurno * 60 <= SegundosPorDia)
  }

  /** The step of the inner loop, in seconds. */
  function Paso(c: Configuracion): int
  {
    c.duracionTurno * 60
  }

  /** A time on the day's grid: inside `[inicio, fin)` and a whole number of steps after `inicio`. */
  predicate EnGrilla(h: Hora, c: Configuracion)
  {
    c.horarioInicio <= h < c.horarioFin && Paso(c) > 0 && (h - c.horarioInicio) % Paso(c) == 0
  }

  /** Slot `a` comes before slot `b` by date, then by time. */
  predicate Antes(a: Horario, b: Horario)
  {
    a.fecha < b.fecha || (a.fecha == b.fecha && a.hora < b.hora)
  }

  predicate Ordenados(s: seq<Horario>)
  {
    forall i, j :: 0 <= i < j < |s| ==> Antes(s[i], s[j])
  }

  /** The slots the inner loop appends for day `dia` once `horario_actual` is `t`. */
  function Jornada(dia: Fecha, t: Hora, c: Configuracion): seq<Horario>
    requires Termina(c) && c.horarioInicio <= t
    decreases c.horarioFin - t
  {
    if t < c.horarioFin then
      [Horario(dia, t)] + Jornada(dia, SumarMinutos(t, c.duracionTurno).value, c)
    else
      []
  }

  /** What `generar_disponibilidades` returns when `date.today()` is `hoy`. */
  function Disponibilidades(c: Configuracion, hoy: Fecha): Resultado
    requires Termina(c)
  {
    match SumarDias(hoy, c.limiteTurnos)
    case None => Desbordamiento
    case Some(limite) =>
      if hoy > limite then Ninguno
      else if NoLaborable(hoy, c) then Horarios([])
      else if hoy == MaxOrdinal then Desbordamiento
      else Horarios(Jornada(hoy, c.horarioInicio, c))
  }

  /** `generar_disponibilidades(configuracion)` with `date.today()` passed in as `hoy`. */
  method GenerarDisponibilidades(c: Configuracion, hoy: Fecha) returns (r: Resultado)
    requires Termina(c)
    ensures r == Disponibilidades(c, hoy)
  {
    var limite := SumarDias(hoy, c.limiteTurnos);
    if limite.None? {
      return Desbordamiento;
    }
    var horarios: seq<Horario> := [];
    var diaActual := hoy;
    // The day loop of the source returns at the end of its first pass on
    // every path, so it is the conditional it behaves as.
    if diaActual <= limite.value {
      if !NoLaborable(diaActual, c) {
        var horarioActual: Hora := c.horarioInicio;
        while horarioActual < c.horarioFin
          invariant c.horarioInicio <= horarioActual
          invariant horarios + Jornada(diaActual, horarioActual, c) == Jornada(diaActual, c.horarioInicio, c)
          decreases c.horarioFin - horarioActual
        {
          horarios := horarios + [Horario(diaActual, horarioActual)];
          horarioActual := SumarMinutos(horarioActual, c.duracionTurno).value;
        }
        if diaActual == MaxOrdinal {
          return Desbordamiento;
        }
        diaActual := diaActual + 1;
      }
      return Horarios(horarios);
    }
    return Ninguno;
  }

  // ---------------------------------------------------------------------
  // Arithmetic helpers

  lemma MulMonotona(a: int, b: int, p: int)
    requires p > 0 && a <= b
    ensures a * p <= b * p
  {
  }

  /** Euclidean division has one quotient: the `q` with `q*p <= x < (q+1)*p`. */
  lemma DivUnica(x: int, p: int, q: int)
    requires p > 0 && q * p <= x < q * p + p
    ensures x / p == q
  {
    var r := x / p;
    assert x == r * p + x % p;
    if r < q {
      MulMonotona(r + 1, q, p);
    } else if r > q {
      MulMonotona(q + 1, r, p);
    }
  }

  // ---------------------------------------------------------------------
  // The slots of one day

  /** One pass of the inner loop: a start before `horario_fin` is kept and the next start is one step later, on the same day. */
  lemma JornadaPaso(dia: Fecha, t: Hora, c: Configuracion)
    requires Termina(c) && c.horarioInicio <= t < c.horarioFin
    ensures t + Paso(c) < SegundosPorDia
    ensures Jornada(dia, t, c) == [Horario(dia, t)] + Jornada(dia, t + Paso(c), c)
  {
    assert SumarMinutos(t, c.duracionTurno) == Some(t + Paso(c));
  }

  /** The k-th slot of a day started at `t` is k steps after `t`. */
  lemma {:induction false} JornadaElemento(dia: Fecha, t: Hora, c: Configuracion)
    requires Termina(c) && c.horarioInicio <= t
    ensures var j := Jornada(dia, t, c);
      forall k :: 0 <= k < |j| ==> j[k].fecha == dia && j[k].hora == t + k * Paso(c)
    decreases c.horarioFin - t
  {
    if t < c.horarioFin {
      var u := t + Paso(c);
      JornadaPaso(dia, t, c);
      JornadaElemento(dia, u, c);
      var j := Jornada(dia, t, c);
      var j' := Jornada(dia, u, c);
      forall k | 0 < k < |j|
        ensures j[k].fecha == dia && j[k].hora == t + k * Paso(c)
      {
        assert j[k] == j'[k - 1];
        assert u + (k - 1) * Paso(c) == t + k * Paso(c);
      }
    }
  }

  /**
   * A day started at `t < horario_fin` has as many slots as it takes for the
   * next start to reach `horario_fin`: only start times are compared.
   */
  lemma {:induction false} JornadaCantidad(dia: Fecha, t: Hora, c: Configuracion)
    requires Termina(c) && c.horarioInicio <= t < c.horarioFin
    ensures var n := |Jornada(dia, t, c)|;
      n > 0 && t + (n - 1) * Paso(c) < c.horarioFin <= t + n * Paso(c)
    decreases c.horarioFin - t
  {
    var u := t + Paso(c);
    JornadaPaso(dia, t, c);
    if u < c.horarioFin {
      JornadaCantidad(dia, u, c);
      var m := |Jornada(dia, u, c)|;
      assert t + m * Paso(c) == u + (m - 1) * Paso(c);
      assert t + (m + 1) * Paso(c) == u + m * Paso(c);
    } else {
      assert Jornada(dia, u, c) == [];
    }
  }

  /** Within a day the slots lie in `[t, horario_fin)`, ascend, and each is one step after the previous. */
  lemma {:induction false} JornadaOrdenada(dia: Fecha, t: Hora, c: Configuracion)
    requires Termina(c) && c.horarioInicio <= t
    ensures var j := Jornada(dia, t, c);
      && (forall s :: s in j ==> s.fecha == dia && t <= s.hora < c.horarioFin)
      && Ordenados(j)
      && (forall i :: 0 <= i < |j| - 1 ==> j[i + 1].hora == j[i].hora + Paso(c))
    decreases c.horarioFin - t
  {
    if t < c.horarioFin {
      var u := t + Paso(c);
      JornadaPaso(dia, t, c);
      var j := Jornada(dia, t, c);
      var j' := Jornada(dia, u, c);
      JornadaOrdenada(dia, u, c);
      forall i, k | 0 <= i < k < |j|
        ensures Antes(j[i], j[k])
      {
        assert j[k] == j'[k - 1] && j'[k - 1] in j';
        if i > 0 {
          assert j[i] == j'[i - 1];
        }
      }
      forall i | 0 <= i < |j| - 1
        ensures j[i + 1].hora == j[i].hora + Paso(c)
      {
        if i > 0 {
          assert j[i] == j'[i - 1] && j[i + 1] == j'[i];
        } else if |j'| > 0 {
          JornadaElemento(dia, u, c);
        }
      }
    }
  }

  /**
   * A day whose start is before its end has `ceil((fin - inicio) / Paso)`
   * slots: e.g. 09:00 to 10:00 every 30 minutes gives two.
   */
  lemma CantidadTurnos(dia: Fecha, c: Configuracion)
    requires Termina(c) && c.horarioInicio < c.horarioFin
    ensures |Jornada(dia, c.horarioInicio, c)| == (c.horarioFin - c.horarioInicio + Paso(c) - 1) / Paso(c)
  {
    JornadaCantidad(dia, c.horarioInicio, c);
    var n := |Jornada(dia, c.horarioInicio, c)|;
    DivUnica(c.horarioFin - c.horarioInicio + Paso(c) - 1, Paso(c), n);
  }

  lemma MultiploMod(k: int, p: int)
    requires p > 0
    ensures (k * p) % p == 0
  {
    DivUnica(k * p, p, k);
    assert k * p == (k * p) / p * p + (k * p) % p;
  }

  lemma ModMultiplo(x: int, p: int)
    requires p > 0 && x % p == 0
    ensures x == (x / p) * p
  {
  }

  /** Every slot of the day is on the day's grid. */
  lemma JornadaEnGrilla(dia: Fecha, c: Configuracion, s: Horario)
    requires Termina(c) && s in Jornada(dia, c.horarioInicio, c)
    ensures s.fecha == dia && EnGrilla(s.hora, c)
  {
    var j := Jornada(dia, c.horarioInicio, c);
    JornadaElemento(dia, c.horarioInicio, c);
    JornadaOrdenada(dia, c.horarioInicio, c);
    var k :| 0 <= k < |j| && j[k] == s;
    assert s.hora - c.horarioInicio == k * Paso(c);
    MultiploMod(k, Paso(c));
  }

  /** Every time on the grid is produced for the day. */
  lemma GrillaEnJornada(dia: Fecha, c: Configuracion, h: Hora)
    requires Termina(c) && EnGrilla(h, c)
    ensures Horario(dia, h) in Jornada(dia, c.horarioInicio, c)
  {
    var j := Jornada(dia, c.horarioInicio, c);
    var p := Paso(c);
    var x := h - c.horarioInicio;
    var k := x / p;
    ModMultiplo(x, p);
    JornadaElemento(dia, c.horarioInicio, c);
    JornadaCantidad(dia, c.horarioInicio, c);
    if k >= |j| {
      MulMonotona(|j|, k, p);
      assert false;
    }
    assert j[k] == Horario(dia, h);
  }

  /** A slot is produced for a day exactly when it is on that day and on the grid. */
  lemma JornadaMiembro(dia: Fecha, c: Configuracion, s: Horario)
    requires Termina(c)
    ensures s in Jornada(dia, c.horarioInicio, c) <==> s.fecha == dia && EnGrilla(s.hora, c)
  {
    if s in Jornada(dia, c.horarioInicio, c) {
      JornadaEnGrilla(dia, c, s);
    }
    if s.fecha == dia && EnGrilla(s.hora, c) {
      GrillaEnJornada(dia, c, s.hora);
    }
  }

  // ---------------------------------------------------------------------
  // What generar_disponibilidades returns

  /**
   * How a call ends: OverflowError when `hoy + limite_turnos` leaves the
   * date range, or when the day after `date.max` is computed; `None` when
   * the horizon is negative; otherwise a list.
   */
  lemma DisponibilidadesCasos(c: Configuracion, hoy: Fecha)
    requires Termina(c)
    ensures var r := Disponibilidades(c, hoy);
      var enRango := MinOrdinal <= hoy + c.limiteTurnos <= MaxOrdinal;
      && (r == Desbordamiento <==> !enRango || (c.limiteTurnos >= 0 && !NoLaborable(hoy, c) && hoy == MaxOrdinal))
      && (r == Ninguno <==> enRango && c.limiteTurnos < 0)
  {
  }

  /**
   * A returned list holds exactly the grid slots of `hoy`, and none at all
   * when `hoy` is a non-working day: no later day ever appears.
   */
  lemma DisponibilidadesSoloHoy(c: Configuracion, hoy: Fecha, s: Horario)
    requires Termina(c) && Disponibilidades(c, hoy).Horarios?
    ensures s in Disponibilidades(c, hoy).horarios
        <==> s.fecha == hoy && !NoLaborable(hoy, c) && EnGrilla(s.hora, c)
  {
    if !NoLaborable(hoy, c) {
      JornadaMiembro(hoy, c, s);
    }
  }

  /**
   * A returned list ascends, each slot one duration after the previous, all
   * inside `[horario_inicio, horario_fin)`, and on a working day with
   * `horario_inicio < horario_fin` it has `ceil((fin - inicio) / duracion)` entries.
   */
  lemma DisponibilidadesOrdenadas(c: Configuracion, hoy: Fecha)
    requires Termina(c) && Disponibilidades(c, hoy).Horarios?
    ensures var h := Disponibilidades(c, hoy).horarios;
      && Ordenados(h)
      && (forall i :: 0 <= i < |h| - 1 ==> h[i + 1].hora == h[i].hora + Paso(c))
      && (forall s :: s in h ==> c.horarioInicio <= s.hora < c.horarioFin)
      && (!NoLaborable(hoy, c) && c.horarioInicio < c.horarioFin
          ==> |h| == (c.horarioFin - c.horarioInicio + Paso(c) - 1) / Paso(c))
  {
    if !NoLaborable(hoy, c) {
      JornadaOrdenada(hoy, c.horarioInicio, c);
      if c.horarioInicio < c.horarioFin {
        CantidadTurnos(hoy, c);
      }
    }
  }

  /** `limite_turnos` has no effect on the list, as long as it is not negative and stays in range. */
  lemma LimiteSinEfecto(c: Configuracion, hoy: Fecha, n: int)
    requires Termina(c)
    requires 0 <= c.limiteTurnos && hoy + c.limiteTurnos <= MaxOrdinal
    requires 0 <= n && hoy + n <= MaxOrdinal
    ensures Disponibilidades(c.(limiteTurnos := n), hoy) == Disponibilidades(c, hoy)
  {
    JornadaIgnoraLimite(hoy, c.horarioInicio, c, n);
  }

  lemma {:induction false} JornadaIgnoraLimite(dia: Fecha, t: Hora, c: Configuracion, n: int)
    requires Termina(c) && c.horarioInicio <= t
    ensures Jornada(dia, t, c.(limiteTurnos := n)) == Jornada(dia, t, c)
    decreases c.horarioFin - t
  {
    if t < c.horarioFin {
      JornadaIgnoraLimite(dia, SumarMinutos(t, c.duracionTurno).value, c, n);
    }
  }

  /** A non-working `hoy` gives the empty list whatever the horizon. */
  lemma DiaNoLaborableVacio(c: Configuracion, hoy: Fecha)
    requires Termina(c) && NoLaborable(hoy, c)
    requires 0 <= c.limiteTurnos && hoy + c.limiteTurnos <= MaxOrdinal
    ensures Disponibilidades(c, hoy) == Horarios([])
  {
  }

  /** Integer entries never match `str(weekday)`: a list such as `[5, 6]` rests no day. */
  lemma EnterosNoCuentan(c: Configuracion, d: Fecha)
    requires forall i :: 0 <= i < |c.diasNoLaborales| ==> c.diasNoLaborales[i].Entero?
    ensures !NoLaborable(d, c)
  {
  }

  /**
   * With Saturday and Sunday listed as "5" and "6", a 09:00 to 10:00 day in
   * 30-minute slots and a horizon of one day, Monday 2024-01-01 (ordinal
   * 738886) yields exactly 09:00 and 09:30 of that Monday.
   */
  lemma EjemploLunes()
    ensures var c := Configuracion([Texto("5"), Texto("6")], 1, 9 * 3600, 10 * 3600, 30);
      Termina(c) && Disponibilidades(c, 738886) == Horarios([Horario(738886, 9 * 3600), Horario(738886, 9 * 3600 + 1800)])
  {
    var c := Configuracion([Texto("5"), Texto("6")], 1, 9 * 3600, 10 * 3600, 30);
    assert DiaSemana(738886) == 0;
    assert !NoLaborable(738886, c);
    assert Jornada(738886, 10 * 3600, c) == [];
    assert Jornada(738886, 9 * 3600 + 1800, c) == [Horario(738886, 9 * 3600 + 1800)];
  }

  /**
   * Under the column defaults every day is a working day, and a call that
   * stays inside the date range returns today's sixteen half-hour slots,
   * 09:00 through 16:30.
   */
  lemma PorDefecto(hoy: Fecha)
    requires hoy + 90 <= MaxOrdinal
    ensures Termina(ConfiguracionPorDefecto())
    ensures var r := Disponibilidades(ConfiguracionPorDefecto(), hoy);
      && r.Horarios?
      && |r.horarios| == 16
      && r.horarios[0] == Horario(hoy, 9 * 3600)
      && r.horarios[15] == Horario(hoy, 16 * 3600 + 1800)
  {
    var c := ConfiguracionPorDefecto();
    CantidadTurnos(hoy, c);
    JornadaElemento(hoy, c.horarioInicio, c);
  }
}
