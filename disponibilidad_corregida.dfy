/**
 * `generar_disponibilidades` as its loops evidently mean it: the day
 * increment moved out of the working-day test and the `return` moved out of
 * the day loop, so every day from today through today + `limite_turnos`
 * contributes its slots.
 */
module DisponibilidadCorregida {
  import opened Opcion
  import opened Calendario
  import opened Disponibilidad

  /** The slots one pass of the corrected day loop appends for day `d`. */
  function HorariosDelDia(d: Fecha, c: Configuracion): seq<Horario>
    requires Termina(c)
  {
    if NoLaborable(d, c) then [] else Jornada(d, c.horarioInicio, c)
  }

  /** The slots of the working days `d`, `d + 1`, ..., `limite`, day after day. */
  function Horizonte(d: int, limite: Fecha, c: Configuracion): seq<Horario>
    requires Termina(c) && MinOrdinal <= d
    decreases limite - d
  {
    if d > limite then []
    else HorariosDelDia(d, c) + Horizonte(d + 1, limite, c)
  }

  /**
   * What the corrected generator returns: OverflowError when the horizon
   * leaves the date range or ends on `date.max` (the last increment still
   * overflows); otherwise the slots of the whole horizon, empty when it is
   * negative.
   */
  function DisponibilidadesCorregidas(c: Configuracion, hoy: Fecha): Resultado
    requires Termina(c)
  {
    match SumarDias(hoy, c.limiteTurnos)
    case None => Desbordamiento
    case Some(limite) =>
      if limite == MaxOrdinal then Desbordamiento
      else Horarios(Horizonte(hoy, limite, c))
  }

  /** The corrected loops, with `date.today()` passed in as `hoy`. */
  method GenerarDisponibilidadesCorregido(c: Configuracion, hoy: Fecha) returns (r: Resultado)
    requires Termina(c)
    ensures r == DisponibilidadesCorregidas(c, hoy)
  {
    var limiteOpt := SumarDias(hoy, c.limiteTurnos);
    if limiteOpt.None? {
      return Desbordamiento;
    }
    var limite := limiteOpt.value;
    var horarios: seq<Horario> := [];
    var diaActual := hoy;
    while diaActual <= limite
      invariant hoy <= diaActual
      invariant horarios + Horizonte(diaActual, limite, c) == Horizonte(hoy, limite, c)
      decreases limite as int - diaActual as int
    {
      ghost var antes := horarios;
      if !NoLaborable(diaActual, c) {
        var horarioActual: Hora := c.horarioInicio;
        while horarioActual < c.horarioFin
          invariant c.horarioInicio <= horarioActual
          invariant horarios + Jornada(diaActual, horarioActual, c) == antes + Jornada(diaActual, c.horarioInicio, c)
          decreases c.horarioFin - horarioActual
        {
          horarios := horarios + [Horario(diaActual, horarioActual)];
          horarioActual := SumarMinutos(horarioActual, c.duracionTurno).value;
        }
      }
      assert horarios == antes + HorariosDelDia(diaActual, c);
      SiguienteDia(antes, diaActual, hoy, limite, c);
      if diaActual == MaxOrdinal {
        return Desbordamiento;
      }
      diaActual := diaActual + 1;
    }
    return Horarios(horarios);
  }

  /** One pass of the corrected day loop keeps the list equal to a prefix of the horizon. */
  lemma SiguienteDia(antes: seq<Horario>, d: Fecha, hoy: Fecha, limite: Fecha, c: Configuracion)
    requires Termina(c) && hoy <= d <= limite
    requires antes + Horizonte(d, limite, c) == Horizonte(hoy, limite, c)
    ensures (antes + HorariosDelDia(d, c)) + Horizonte(d as int + 1, limite, c) == Horizonte(hoy, limite, c)
  {
    var dia := HorariosDelDia(d, c);
    var resto := Horizonte(d as int + 1, limite, c);
    assert Horizonte(d, limite, c) == dia + resto;
    assert (antes + dia) + resto == antes + (dia + resto);
  }

  /** A slot is in the horizon exactly when its date is a working day in range and its time is on the grid. */
  lemma {:induction false} HorizonteMiembro(d: int, limite: Fecha, c: Configuracion, s: Horario)
    requires Termina(c) && MinOrdinal <= d
    ensures s in Horizonte(d, limite, c)
        <==> d <= s.fecha <= limite && !NoLaborable(s.fecha, c) && EnGrilla(s.hora, c)
    decreases limite - d
  {
    if d <= limite {
      HorizonteMiembro(d + 1, limite, c, s);
      JornadaMiembro(d, c, s);
    }
  }

  lemma OrdenadosConcat(a: seq<Horario>, b: seq<Horario>)
    requires Ordenados(a) && Ordenados(b)
    requires forall x, y :: x in a && y in b ==> Antes(x, y)
    ensures Ordenados(a + b)
  {
    forall i, j | 0 <= i < j < |a + b|
      ensures Antes((a + b)[i], (a + b)[j])
    {
      if j < |a| {
        assert (a + b)[i] == a[i] && (a + b)[j] == a[j];
      } else if i >= |a| {
        assert (a + b)[i] == b[i - |a|] && (a + b)[j] == b[j - |a|];
      } else {
        assert (a + b)[i] in a && (a + b)[j] in b;
      }
    }
  }

  /** The horizon's slots ascend by date and then by time. */
  lemma {:induction false} HorizonteOrdenado(d: int, limite: Fecha, c: Configuracion)
    requires Termina(c) && MinOrdinal <= d
    ensures Ordenados(Horizonte(d, limite, c))
    decreases limite - d
  {
    if d <= limite {
      var dia := HorariosDelDia(d, c);
      var resto := Horizonte(d + 1, limite, c);
      HorizonteOrdenado(d + 1, limite, c);
      if !NoLaborable(d, c) {
        JornadaOrdenada(d, c.horarioInicio, c);
      }
      forall x, y | x in dia && y in resto
        ensures Antes(x, y)
      {
        HorizonteMiembro(d + 1, limite, c, y);
      }
      OrdenadosConcat(dia, resto);
    }
  }

  /**
   * A returned list holds exactly the grid slots of the working days from
   * `hoy` through `hoy + limite_turnos`, in ascending (date, time) order.
   */
  lemma DisponibilidadesCorregidasCubren(c: Configuracion, hoy: Fecha, s: Horario)
    requires Termina(c) && DisponibilidadesCorregidas(c, hoy).Horarios?
    ensures var h := DisponibilidadesCorregidas(c, hoy).horarios;
      && Ordenados(h)
      && (s in h <==> hoy <= s.fecha <= hoy + c.limiteTurnos && !NoLaborable(s.fecha, c) && EnGrilla(s.hora, c))
  {
    var limite := SumarDias(hoy, c.limiteTurnos).value;
    HorizonteMiembro(hoy, limite, c, s);
    HorizonteOrdenado(hoy, limite, c);
  }

  /**
   * The early `return` of the code as written: on the Monday example with a
   * one-day horizon, Tuesday 09:00 is missing from what the code returns but
   * is produced once the loops are corrected.
   */
  lemma RetornoTempranoPierdeDias()
    ensures var c := Configuracion([Texto("5"), Texto("6")], 1, 9 * 3600, 10 * 3600, 30);
      && Termina(c)
      && Disponibilidades(c, 738886).Horarios?
      && Horario(738887, 9 * 3600) !in Disponibilidades(c, 738886).horarios
      && DisponibilidadesCorregidas(c, 738886).Horarios?
      && Horario(738887, 9 * 3600) in DisponibilidadesCorregidas(c, 738886).horarios
  {
    var c := Configuracion([Texto("5"), Texto("6")], 1, 9 * 3600, 10 * 3600, 30);
    var martes := Horario(738887, 9 * 3600);
    assert DiaSemana(738887) == 1;
    assert !NoLaborable(738887, c);
    assert EnGrilla(martes.hora, c);
    DisponibilidadesSoloHoy(c, 738886, martes);
    DisponibilidadesCorregidasCubren(c, 738886, martes);
  }
}
