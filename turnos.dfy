/**
 * The appointment table of app.py and the three routes that use it:
 * `nuevo_turno` inserts a row, `cancelar_turno` deletes one unless fewer
 * than 48 hours remain, and `listar_turnos` reads them all.
 */
module Turnos {
  import opened Calendario

  /** A row of the `turno` table; `fechaTurno` is the naive `datetime` of the appointment. */
  datatype Turno = Turno(
    id: int,
    nombreCliente: string,
    emailCliente: string,
    fechaTurno: Instante,
    pagado: bool)

  /** `timedelta(hours=48)`, in microseconds. */
  const PlazoCancelacion: int := 48 * MicrosegundosPorHora

  /**
   * The test of `cancelar_turno`: the time left, `fecha_turno - now`, is not
   * below 48 hours. No role is consulted.
   */
  predicate PuedeCancelarse(fechaTurno: Instante, ahora: Instante)
  {
    !(fechaTurno - ahora < PlazoCancelacion)
  }

  /** How a cancellation request ends: 404, refused with the 48-hour message, or deleted. */
  datatype Cancelacion = NoEncontrado | FueraDePlazo | Cancelado

  /** Exactly 48 hours before the appointment may still cancel; one microsecond later may not. */
  lemma PlazoExacto(fechaTurno: Instante)
    ensures PuedeCancelarse(fechaTurno, fechaTurno - PlazoCancelacion)
    ensures !PuedeCancelarse(fechaTurno, fechaTurno - PlazoCancelacion + 1)
    ensures !PuedeCancelarse(fechaTurno, fechaTurno - (47 * 60 + 59) * 60 * 1000000)
  {
  }

  /** Waiting never reopens the window: a refusal at `ahora` is a refusal at every later instant. */
  lemma PlazoMonotono(fechaTurno: Instante, ahora: Instante, despues: Instante)
    requires ahora <= despues && !PuedeCancelarse(fechaTurno, ahora)
    ensures !PuedeCancelarse(fechaTurno, despues)
  {
  }

  /**
   * The table, keyed by primary key. `proximoId` is the key the store hands
   * to the next insert; keys are never reused.
   */
  class Agenda {
    var turnos: map<int, Turno>
    var proximoId: int

    /** Every row is stored under its own id, and every id was handed out already. */
    ghost predicate Valid()
      reads this
    {
      && 1 <= proximoId
      && forall id :: id in turnos ==> 1 <= id < proximoId && turnos[id].id == id
    }

    /** The empty table that `db.create_all()` leaves. */
    constructor ()
      ensures Valid() && turnos == map[]
    {
      turnos := map[];
      proximoId := 1;
    }

    /**
     * `nuevo_turno` after the form validated: one new row with the given
     * name, email and date, unpaid, under a fresh id; nothing is checked
     * against the dates already booked.
     */
    method NuevoTurno(nombre: string, email: string, fecha: Instante) returns (id: int)
      requires Valid()
      modifies this
      ensures Valid()
      ensures id !in old(turnos)
      ensures turnos == old(turnos)[id := Turno(id, nombre, email, fecha, false)]
      ensures |turnos| == |old(turnos)| + 1
    {
      id := proximoId;
      turnos := turnos[id := Turno(id, nombre, email, fecha, false)];
      proximoId := proximoId + 1;
    }

    /**
     * `cancelar_turno(id)` at instant `ahora`: an unknown id is a 404; fewer
     * than 48 hours left is refused; otherwise exactly that row is deleted.
     * Only a deletion changes the table.
     */
    method CancelarTurno(id: int, ahora: Instante) returns (res: Cancelacion)
      requires Valid()
      modifies this
      ensures Valid() && proximoId == old(proximoId)
      ensures res == NoEncontrado <==> id !in old(turnos)
      ensures res == FueraDePlazo <==> id in old(turnos) && !PuedeCancelarse(old(turnos)[id].fechaTurno, ahora)
      ensures res == Cancelado <==> id in old(turnos) && PuedeCancelarse(old(turnos)[id].fechaTurno, ahora)
      ensures turnos == if res == Cancelado then old(turnos) - {id} else old(turnos)
    {
      if id !in turnos {
        return NoEncontrado;
      }
      var turno := turnos[id];
      var tiempoRestante := turno.fechaTurno - ahora;
      if tiempoRestante < PlazoCancelacion {
        return FueraDePlazo;
      }
      turnos := turnos - {id};
      return Cancelado;
    }

    /**
     * `Turno.query.all()`: every row exactly once. The query names no
     * order; rows come in primary-key order, as a scan of the table does.
     */
    method ListarTurnos() returns (lista: seq<Turno>)
      requires Valid()
      ensures forall i :: 0 <= i < |lista| ==> lista[i].id in turnos && turnos[lista[i].id] == lista[i]
      ensures forall id :: id in turnos ==> turnos[id] in lista
      ensures forall i, j :: 0 <= i < j < |lista| ==> lista[i].id < lista[j].id
    {
      lista := [];
      var k := 1;
      while k < proximoId
        invariant 1 <= k <= proximoId
        invariant forall i :: 0 <= i < |lista| ==> lista[i].id in turnos && turnos[lista[i].id] == lista[i]
        invariant forall i :: 0 <= i < |lista| ==> lista[i].id < k
        invariant forall id :: id in turnos && id < k ==> turnos[id] in lista
        invariant forall i, j :: 0 <= i < j < |lista| ==> lista[i].id < lista[j].id
      {
        if k in turnos {
          lista := lista + [turnos[k]];
        }
        k := k + 1;
      }
    }
  }

  /**
   * Two bookings for the same date both succeed and are both stored: the
   * table holds no uniqueness on `fecha_turno`.
   */
  method ReservaDuplicada(agenda: Agenda, nombre: string, email: string, fecha: Instante) returns (i: int, j: int)
    requires agenda.Valid()
    modifies agenda
    ensures agenda.Valid() && i != j && i !in old(agenda.turnos) && j !in old(agenda.turnos)
    ensures i in agenda.turnos && j in agenda.turnos
    ensures agenda.turnos[i].fechaTurno == fecha && agenda.turnos[j].fechaTurno == fecha
    ensures !agenda.turnos[i].pagado && !agenda.turnos[j].pagado
    ensures agenda.turnos == old(agenda.turnos)[i := Turno(i, nombre, email, fecha, false)][j := Turno(j, nombre, email, fecha, false)]
    ensures |agenda.turnos| == |old(agenda.turnos)| + 2
  {
    i := agenda.NuevoTurno(nombre, email, fecha);
    j := agenda.NuevoTurno(nombre, email, fecha);
  }

  /**
   * Booking and then cancelling with at least 48 hours to go is a round
   * trip: the table holds the same rows as before.
   */
  method ReservarYCancelar(agenda: Agenda, nombre: string, email: string, fecha: Instante, ahora: Instante)
    returns (res: Cancelacion)
    requires agenda.Valid() && PuedeCancelarse(fecha, ahora)
    modifies agenda
    ensures agenda.Valid() && res == Cancelado && agenda.turnos == old(agenda.turnos)
  {
    var id := agenda.NuevoTurno(nombre, email, fecha);
    res := agenda.CancelarTurno(id, ahora);
  }
}
