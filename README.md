# Appointment scheduling core of gestion-turnos, in Dafny

This project models the logic in `app.py` of a small Flask application for booking appointments (*turnos*). It covers three parts:

- **The availability generator `generar_disponibilidades`.** It reads the `Configuracion` row: a list of non-working weekdays, a horizon in days (`limite_turnos`), the opening and closing times of day, and a slot length in minutes. It lists `{fecha, hora}` slots with two nested loops. The model follows the code **as written**. The `return` sits inside the day loop, and the day increment sits inside the working-day test. So the function looks at today only. It returns today's grid of slots, an empty list on a non-working day, `None` for a negative horizon, or raises OverflowError at the edges of the date range. `limite_turnos` has no effect otherwise.
- **The 48-hour cancellation rule and the delete** in `cancelar_turno`.
- **The appointment table**, with its insert (`nuevo_turno`), delete and full listing (`listar_turnos`).

Modules:

- `Calendario` (`calendario.dfy`) models Python's date arithmetic. Dates are proleptic ordinals in `date.min..date.max`, and ordinal 1 is a Monday. Times of day are seconds in `[0, 86400)`. Instants are microseconds. It has `weekday()`, `date + timedelta(days=n)` and the time-of-day addition of line 44. That addition wraps past midnight, and it overflows below `date.min` and above `date.max`.
- `Disponibilidad` (`disponibilidad.dfy`) holds the `Configuracion` record, the as-written generator as a method with its inner `while` loop, and the function that specifies it. It also has the lemmas about one day's slots and about what a call returns.
- `DisponibilidadCorregida` (`disponibilidad_corregida.dfy`) holds the generator with its two misplaced statements moved out one level, together with its proofs (see Findings).
- `Turnos` (`turnos.dfy`) holds the `Turno` row, the 48-hour predicate and the class `Agenda`. `Agenda` holds the table as a map from primary key to row, and its methods insert, cancel and list.

The code behaves as follows, and the model keeps it:

- There is no role check. The 48-hour rule applies to every caller, and no provider is exempt.
- Booking does not check for an existing appointment at the same `fecha_turno`, so duplicates are stored (`ReservaDuplicada`).
- The generator covers only today, not the whole horizon.
- Non-working days are matched as the strings `"0"`..`"6"`. Integer entries never match.
- There is no per-client listing.

The generator is modelled for configurations that satisfy `Termina`: either opening is not before closing, or the duration is positive and `horario_fin` plus one duration stays within the day. `Termina` is enough for the inner loop to end, but it is not necessary. It also leaves out some inputs on which the code finishes; "## Left out" lists them.

## Model

| member | source | states |
|---|---|---|
| `Calendario.DiaSemana` | app.py:37 | `weekday()` is in 0..6, and `date.min` is a Monday (0) |
| `Calendario.DiaSiguiente` | app.py:37 | consecutive dates have consecutive weekdays, with Sunday (6) followed by Monday (0) |
| `Calendario.SumarDias` | app.py:32 | adding n days succeeds exactly when the result stays in `date.min..date.max`, and it then moves the date by exactly n |
| `Calendario.SumarMinutos` | app.py:44 | adding minutes to a time of day fails exactly when the intermediate datetime leaves the date range; with no midnight crossing it is plain addition; otherwise it differs from plain addition by whole days |
| `Disponibilidad.TextoDia` | app.py:37 | `str(weekday)` is the single digit character whose value is the weekday, so `int(str(w)) == w` |
| `Disponibilidad.GenerarDisponibilidades` | app.py:30-46 | the nested loops return exactly what the specification `Disponibilidades` gives for the configuration and today's date |
| `Disponibilidad.JornadaPaso` | app.py:39-44 | one pass of the inner loop keeps a start before `horario_fin` and moves on by exactly one duration, with no midnight wrap |
| `Disponibilidad.JornadaElemento` | app.py:38-44 | the k-th slot of a day started at t is on that day at t + k durations |
| `Disponibilidad.JornadaCantidad` | app.py:38-44 | a day started before `horario_fin` has n > 0 slots, with the last start before `horario_fin` and the next one at or after it, since only start times are compared |
| `Disponibilidad.JornadaOrdenada` | app.py:38-44 | a day's slots are on that day, lie in `[t, horario_fin)`, ascend, and successive times differ by exactly one duration |
| `Disponibilidad.CantidadTurnos` | app.py:38-44 | a day with opening before closing has `ceil((fin - inicio) / duracion)` slots |
| `Disponibilidad.JornadaEnGrilla` | app.py:38-44 | every slot produced for a day is on the grid: inside `[inicio, fin)` and a whole number of durations after `inicio` |
| `Disponibilidad.GrillaEnJornada` | app.py:38-44 | every time on the grid is produced for the day |
| `Disponibilidad.JornadaMiembro` | app.py:38-44 | a slot is produced for a day if and only if it is on that day and on the grid |
| `Disponibilidad.DisponibilidadesCasos` | app.py:32-46 | a call raises OverflowError exactly when `hoy + limite_turnos` is out of range, or the increment on a working `date.max` overflows; it returns `None` exactly when the horizon is negative and in range |
| `Disponibilidad.DisponibilidadesSoloHoy` | app.py:35-46 | a returned list holds a slot if and only if its date is today, today is a working day and its time is on the grid; no later date is ever returned |
| `Disponibilidad.DisponibilidadesOrdenadas` | app.py:38-44 | a returned list ascends by one duration per slot inside `[inicio, fin)`, and on a working day with `inicio < fin` it has `ceil((fin - inicio) / duracion)` slots |
| `Disponibilidad.LimiteSinEfecto` | app.py:32-46 | any two non-negative in-range horizons give the same result |
| `Disponibilidad.JornadaIgnoraLimite` | app.py:38-44 | the inner loop does not read `limite_turnos` |
| `Disponibilidad.DiaNoLaborableVacio` | app.py:37-46 | a non-working today gives the empty list, whatever the non-negative in-range horizon |
| `Disponibilidad.EnterosNoCuentan` | app.py:23-37 | a non-working list of integers, such as `[5, 6]`, never makes any day non-working |
| `Disponibilidad.EjemploLunes` | app.py:30-46 | with "5" and "6" listed, 09:00 to 10:00 every 30 minutes and a one-day horizon, a Monday yields exactly 09:00 and 09:30 of that Monday |
| `Disponibilidad.PorDefecto` | app.py:21-27 | under the column defaults ("[]", 90, 09:00, 17:00, 30) an in-range call returns today's 16 slots, 09:00 through 16:30 |
| `DisponibilidadCorregida.GenerarDisponibilidadesCorregido` | app.py:30-46 | the corrected loops return exactly what `DisponibilidadesCorregidas` gives |
| `DisponibilidadCorregida.SiguienteDia` | app.py:36-45 | one pass of the corrected day loop extends the list by that day's slots and keeps it a prefix of the horizon |
| `DisponibilidadCorregida.HorizonteMiembro` | app.py:36-45 | a slot is in the horizon if and only if its date is a working day in range and its time is on the grid |
| `DisponibilidadCorregida.HorizonteOrdenado` | app.py:36-45 | the horizon's slots ascend by date, then by time |
| `DisponibilidadCorregida.DisponibilidadesCorregidasCubren` | app.py:30-46 | a corrected result is ordered, and holds a slot if and only if its date is a working day from today through today + `limite_turnos` and its time is on the grid |
| `DisponibilidadCorregida.RetornoTempranoPierdeDias` | app.py:45-46 | in the Monday example, Tuesday 09:00 is missing from what the code returns but present in the corrected result |
| `Turnos.PlazoExacto` | app.py:73-76 | exactly 48 hours before the appointment, cancelling is allowed; one microsecond later, or 47 h 59 min before, it is refused |
| `Turnos.PlazoMonotono` | app.py:73-76 | a refusal at one instant stays a refusal at every later instant |
| `Turnos.Agenda.constructor` | app.py:49-54 | the new table is empty and valid: each row is stored under its own id |
| `Turnos.Agenda.NuevoTurno` | app.py:91-97 | inserts exactly one row, under a fresh id, with the given name, email and date and `pagado == false`; all other rows are unchanged and no date is checked |
| `Turnos.Agenda.CancelarTurno` | app.py:70-84 | an unknown id gives not-found; fewer than 48 h left gives a refusal; exactly 48 h or more deletes exactly that row; only a deletion changes the table |
| `Turnos.Agenda.ListarTurnos` | app.py:104 | returns every row of the table exactly once, each as stored, in increasing id order |
| `Turnos.ReservaDuplicada` | app.py:91-97 | on any valid table, two bookings at the same date both succeed and store two rows under distinct fresh ids, both at that date and unpaid; the table grows by two |
| `Turnos.ReservarYCancelar` | app.py:70-97 | booking, then cancelling with at least 48 h to go, leaves the table as it was |

## Findings

| source | as written | input that shows it | evidently intended | confidence | as-written member | corrected member |
|---|---|---|---|---|---|---|
| app.py:45-46 | `return horarios` is inside the day loop, and `dia_actual += timedelta(days=1)` is inside the working-day test. Only today is generated and `limite_turnos` has no effect. A negative horizon returns `None`. | Monday 2024-01-01, non-working `["5", "6"]`, horizon 1, 09:00 to 10:00, 30 minutes: Tuesday 09:00 is not returned | Every working day from today through today + `limite_turnos` contributes its slots. Both statements move out one level; moving only the `return` would never get past a non-working day. | high; not executed | `Disponibilidad.GenerarDisponibilidades` (shown by `DisponibilidadCorregida.RetornoTempranoPierdeDias`) | `DisponibilidadCorregida.GenerarDisponibilidadesCorregido` |

## Left out

- Flask routes, templates, `flash` messages and redirects are left out. They are HTTP plumbing. The outcome of a request is the `Cancelacion` value or the returned id.
- WTForms validation and parsing of `"%Y-%m-%d %H:%M"` are left out. Booking inputs are taken as already validated.
- SQLAlchemy sessions and commits, and `manage_db.py`, are left out. The table is an in-memory map. The store's key generator is a counter that never reuses ids. Some databases reuse the largest deleted key, and the model does not capture that.
- `eval` of the stored `dias_no_laborales` text is left out. The model takes the list it evaluates to, as integer and string literals.
- `date.today()` and `datetime.now()` are parameters (`hoy`, `ahora`), not a clock.
- Times of day are whole seconds. The configured times carry no microseconds.
- `Turno.query.all()` names no order. The model returns rows in primary-key order.
- There are no roles, no access guard and no atomic or concurrent reservation in the code, so none are modelled.
- The `pagado` flag is modelled only through its default, `false`.
- `.env` and secret-key configuration are left out.
- Disponibilidad.GenerarDisponibilidades: configurations outside `Termina` are not modelled. On them the code behaves in the following ways, none captured here:
  - With a duration of 0, or a step that wraps past midnight back below `horario_fin`, the inner loop may never end.
  - A step may land at or after `horario_fin` but before midnight, past the point `Termina` allows, and the code then finishes normally. For example, 23:00 to 23:50 returns one slot in 50-minute slots and in 55-minute slots alike.
  - A positive duration large enough to carry the intermediate `datetime` of line 44 past `date.max` raises OverflowError at the first step.
  - With a negative duration and opening before closing, the code appends slots while stepping down, then raises OverflowError once the time falls below midnight of `date.min`.
  - When the inner loop never runs, the duration plays no part: a non-working today gives `[]`, a negative horizon gives `None`, and an out-of-range horizon raises OverflowError at line 32. `Termina` still excludes these inputs when their duration fails it.
- Disponibilidad.GenerarDisponibilidades: the day loop of line 36 is written as a conditional. Its body returns on every path, so it never starts a second pass.
