/** What the routes keep true of the database (Models.Valid, including the
    conservation of credited minutes), what they promise across requests, and
    how the statistics read relates to the pomodoros. */
module Invariants {
  import opened Outcomes
  import opened Sums
  import opened Tables
  import opened Models
  import opened Endpoints

  // ------------------------------------------------- every route keeps Valid

  lemma CrearUsuarioValid(db: Db, nickname: string, ahora: int)
    requires Valid(db)
    ensures Valid(CrearUsuario(db, nickname, ahora).1)
  {
  }

  lemma {:induction false} CrearSesionValid(db: Db, idUsuario: int, nombreSesion: string, descripcion: Option<string>, ahora: int)
    requires Valid(db)
    ensures Valid(CrearSesion(db, idUsuario, nombreSesion, descripcion, ahora).1)
  {
    var out := CrearSesion(db, idUsuario, nombreSesion, descripcion, ahora);
    if out.0.Ok? {
      // no pomodoro can belong to a session that did not exist
      var id := db.nextSesion;
      SumZero(CreditAt(db.pomodoros, id), db.nextPomodoro);
    }
  }

  /** Replacing pomodoro k changes what session s is credited by exactly the
      change in k's own credit to s. */
  lemma CreditedPointUpdate(pomodoros: map<int, Pomodoro>, k: nat, p: Pomodoro, s: int, n: nat)
    requires k < n
    ensures Credited(pomodoros[k := p], s, n)
         == Credited(pomodoros, s, n) - CreditAt(pomodoros, s)(k) + CreditTo(p, s)
  {
    SumPointUpdate(CreditAt(pomodoros, s), CreditAt(pomodoros[k := p], s), n, k);
  }

  lemma {:induction false} IniciarPomodoroValid(db: Db, idSesion: int, ahora: int, duracionActividad: int, duracionDescanso: int)
    requires Valid(db)
    ensures Valid(IniciarPomodoro(db, idSesion, ahora, duracionActividad, duracionDescanso).1)
  {
    var out := IniciarPomodoro(db, idSesion, ahora, duracionActividad, duracionDescanso);
    if out.0.Ok? {
      var d, id := out.1, db.nextPomodoro;
      forall s | s in d.sesiones
        ensures d.sesiones[s].totalMinutosAcumulados == Credited(d.pomodoros, s, d.nextPomodoro)
      {
        assert db.sesiones[s].totalMinutosAcumulados == Credited(db.pomodoros, s, id);
        CreditedPointUpdate(db.pomodoros, id, d.pomodoros[id], s, id + 1);
        assert d.pomodoros == db.pomodoros[id := d.pomodoros[id]];
      }
    }
  }

  /** Closing an open pomodoro with a credit of at least one minute keeps every
      constraint, and in particular the conservation of minutes. */
  lemma {:induction false} CerrarValid(db: Db, id: int, estado: Estado, c: int, ahora: int)
    requires Valid(db) && id in db.pomodoros && db.pomodoros[id].estado == EnProgreso
    requires estado != EnProgreso && c >= 1
    ensures Valid(Cerrar(db, id, estado, c, ahora))
  {
    CerrarConserved(db, id, estado, c, ahora);
  }

  lemma CerrarConserved(db: Db, id: int, estado: Estado, c: int, ahora: int)
    requires Valid(db) && id in db.pomodoros && db.pomodoros[id].estado == EnProgreso
    requires estado != EnProgreso
    ensures Conserved(Cerrar(db, id, estado, c, ahora))
  {
    var d := Cerrar(db, id, estado, c, ahora);
    forall s | s in d.sesiones
      ensures d.sesiones[s].totalMinutosAcumulados == Credited(d.pomodoros, s, d.nextPomodoro)
    {
      assert db.sesiones[s].totalMinutosAcumulados == Credited(db.pomodoros, s, db.nextPomodoro);
      CreditedPointUpdate(db.pomodoros, id, d.pomodoros[id], s, db.nextPomodoro);
    }
  }

  lemma CompletarValid(db: Db, id: int, ahora: int)
    requires Valid(db)
    ensures Valid(CompletarPomodoro(db, id, ahora).1)
  {
    var out := CompletarPomodoro(db, id, ahora);
    if out.0.Ok? {
      CerrarValid(db, id, Completado, out.0.value, ahora);
    }
  }

  lemma CancelarValid(db: Db, id: int, ahora: int)
    requires Valid(db)
    ensures Valid(CancelarPomodoro(db, id, ahora).1)
  {
    var out := CancelarPomodoro(db, id, ahora);
    if out.0.Ok? {
      CerrarValid(db, id, Cancelado, out.0.value, ahora);
    }
  }

  lemma {:induction false} EliminarSesionValid(db: Db, id: int)
    requires Valid(db)
    ensures Valid(EliminarSesion(db, id))
  {
    var d := EliminarSesion(db, id);
    forall s | s in d.sesiones
      ensures d.sesiones[s].totalMinutosAcumulados == Credited(d.pomodoros, s, d.nextPomodoro)
    {
      assert db.sesiones[s].totalMinutosAcumulados == Credited(db.pomodoros, s, db.nextPomodoro);
      SumCongruent(CreditAt(db.pomodoros, s), CreditAt(d.pomodoros, s), db.nextPomodoro);
    }
  }

  lemma {:induction false} EliminarUsuarioValid(db: Db, id: int)
    requires Valid(db)
    ensures Valid(EliminarUsuario(db, id))
  {
    var d := EliminarUsuario(db, id);
    forall s | s in d.sesiones
      ensures d.sesiones[s].totalMinutosAcumulados == Credited(d.pomodoros, s, d.nextPomodoro)
    {
      assert db.sesiones[s].totalMinutosAcumulados == Credited(db.pomodoros, s, db.nextPomodoro);
      SumCongruent(CreditAt(db.pomodoros, s), CreditAt(d.pomodoros, s), db.nextPomodoro);
    }
  }

  // ---------------------------------------------- a pomodoro is credited once

  /** After a successful completion, completing or cancelling the same pomodoro
      again is refused with 400 and changes nothing. */
  lemma CompletarUnaVez(db: Db, id: int, ahora: int, despues: int)
    requires Valid(db) && CompletarPomodoro(db, id, ahora).0.Ok?
    ensures var d := CompletarPomodoro(db, id, ahora).1;
      && Valid(d)
      && CompletarPomodoro(d, id, despues) == (Err(BadRequest), d)
      && CancelarPomodoro(d, id, despues) == (Err(BadRequest), d)
  {
    CompletarValid(db, id, ahora);
  }

  /** After a successful cancellation, completing or cancelling the same
      pomodoro again is refused with 400 and changes nothing. */
  lemma CancelarUnaVez(db: Db, id: int, ahora: int, despues: int)
    requires Valid(db) && CancelarPomodoro(db, id, ahora).0.Ok?
    ensures var d := CancelarPomodoro(db, id, ahora).1;
      && Valid(d)
      && CompletarPomodoro(d, id, despues) == (Err(BadRequest), d)
      && CancelarPomodoro(d, id, despues) == (Err(BadRequest), d)
  {
    CancelarValid(db, id, ahora);
  }

  // ------------------------------------------------------------ statistics

  /** Minutes that pomodoro i credited to a session of user u. */
  function CreditoDeUsuarioAt(db: Db, u: int): nat -> int
  {
    (i: nat) =>
      if i in db.pomodoros && db.pomodoros[i].idSesion in db.sesiones
         && db.sesiones[db.pomodoros[i].idSesion].idUsuario == u
      then CreditTo(db.pomodoros[i], db.pomodoros[i].idSesion)
      else 0
  }

  /** The same, counting only sessions with identifier below m. */
  function CreditoDeUsuarioBelow(db: Db, u: int, m: nat): nat -> int
  {
    (i: nat) =>
      if i in db.pomodoros && db.pomodoros[i].idSesion < m then CreditoDeUsuarioAt(db, u)(i) else 0
  }

  /** Raising the session bound from k to k + 1 adds exactly what pomodoro i
      credited to session k, when k is a session of user u. */
  lemma CreditoDeUsuarioBelowStep(db: Db, u: int, k: nat, i: nat)
    requires ForeignKeys(db)
    ensures CreditoDeUsuarioBelow(db, u, k + 1)(i) == CreditoDeUsuarioBelow(db, u, k)(i)
      + (if k in db.sesiones && db.sesiones[k].idUsuario == u then CreditAt(db.pomodoros, k)(i) else 0)
  {
    if i in db.pomodoros && db.pomodoros[i].idSesion == k {
      var p := db.pomodoros[i];
      assert k in db.sesiones;
      assert CreditoDeUsuarioBelow(db, u, k)(i) == 0;
      assert CreditoDeUsuarioBelow(db, u, k + 1)(i) == CreditoDeUsuarioAt(db, u)(i);
      assert CreditAt(db.pomodoros, k)(i) == CreditTo(p, k);
    } else {
      assert CreditAt(db.pomodoros, k)(i) == 0;
    }
  }

  lemma {:induction false} MinutosDeUsuarioBelow(db: Db, u: int, m: nat)
    requires Valid(db)
    ensures Sum(TotalDeUsuarioAt(db.sesiones, u), m) == Sum(CreditoDeUsuarioBelow(db, u, m), db.nextPomodoro)
  {
    if m == 0 {
      SumZero(CreditoDeUsuarioBelow(db, u, 0), db.nextPomodoro);
    } else {
      var k := m - 1;
      MinutosDeUsuarioBelow(db, u, k);
      var propia := k in db.sesiones && db.sesiones[k].idUsuario == u;
      var deK := (i: nat) => if propia then CreditAt(db.pomodoros, k)(i) else 0;
      forall i: nat | i < db.nextPomodoro
        ensures CreditoDeUsuarioBelow(db, u, m)(i) == CreditoDeUsuarioBelow(db, u, k)(i) + deK(i)
      {
        CreditoDeUsuarioBelowStep(db, u, k, i);
      }
      SumAdd(CreditoDeUsuarioBelow(db, u, k), deK, CreditoDeUsuarioBelow(db, u, m), db.nextPomodoro);
      if propia {
        assert db.sesiones[k].totalMinutosAcumulados == Credited(db.pomodoros, k, db.nextPomodoro);
        SumCongruent(deK, CreditAt(db.pomodoros, k), db.nextPomodoro);
      } else {
        SumZero(deK, db.nextPomodoro);
      }
    }
  }

  /** The total minutes reported for a user equal the minutes credited by every
      completed or cancelled pomodoro in that user's sessions, and are never
      negative. */
  lemma MinutosDeUsuario(db: Db, u: int)
    requires Valid(db)
    ensures ObtenerEstadisticasUsuario(db, u).totalMinutos == Sum(CreditoDeUsuarioAt(db, u), db.nextPomodoro)
    ensures ObtenerEstadisticasUsuario(db, u).totalMinutos >= 0
  {
    MinutosDeUsuarioBelow(db, u, db.nextSesion);
    SumCongruent(CreditoDeUsuarioBelow(db, u, db.nextSesion), CreditoDeUsuarioAt(db, u), db.nextPomodoro);
    forall i: nat | i < db.nextPomodoro
      ensures CreditoDeUsuarioAt(db, u)(i) >= 0
    {
      if i in db.pomodoros {
        var p := db.pomodoros[i];
        assert ConsistentLifecycle(p);
        assert CreditTo(p, p.idSesion) >= 0;
      }
    }
    SumNonNegative(CreditoDeUsuarioAt(db, u), db.nextPomodoro);
  }

  /** The completed count reported for a user is the number of the user's
      pomodoros in state completado. */
  lemma CompletadosDeUsuario(db: Db, u: int)
    requires Valid(db)
    ensures ObtenerEstadisticasUsuario(db, u).totalPomodorosCompletados
      == |set i | i in db.pomodoros && db.pomodoros[i].estado == Completado
                  && db.sesiones[db.pomodoros[i].idSesion].idUsuario == u|
  {
    var keep := CompletadoDeUsuario(db.sesiones, u);
    CountIsCardinality(db.pomodoros, keep, db.nextPomodoro);
    assert Selected(db.pomodoros, keep, db.nextPomodoro)
        == (set i | i in db.pomodoros && db.pomodoros[i].estado == Completado
                    && db.sesiones[db.pomodoros[i].idSesion].idUsuario == u);
  }

  /** A user without sessions (an unknown user in particular) gets all zeros. */
  lemma {:induction false} EstadisticasSinSesiones(db: Db, u: int)
    requires Valid(db)
    requires forall s :: s in db.sesiones ==> db.sesiones[s].idUsuario != u
    ensures ObtenerEstadisticasUsuario(db, u) == Estadisticas(u, 0, 0, 0)
  {
    SumZero(TotalDeUsuarioAt(db.sesiones, u), db.nextSesion);
    SumZero(Indicator(db.sesiones, DeUsuario(u)), db.nextSesion);
    SumZero(Indicator(db.pomodoros, CompletadoDeUsuario(db.sesiones, u)), db.nextPomodoro);
  }

  /** Adding an open pomodoro under the next identifier leaves every completed count as it was. */
  lemma {:induction false} CompletadosConNuevoAbierto(db: Db, d: Db, u: int)
    requires d.sesiones == db.sesiones && d.nextPomodoro == db.nextPomodoro + 1
    requires db.nextPomodoro !in db.pomodoros && db.nextPomodoro in d.pomodoros
    requires d.pomodoros == db.pomodoros[db.nextPomodoro := d.pomodoros[db.nextPomodoro]]
    requires d.pomodoros[db.nextPomodoro].estado == EnProgreso
    ensures Count(d.pomodoros, CompletadoDeUsuario(d.sesiones, u), d.nextPomodoro)
         == Count(db.pomodoros, CompletadoDeUsuario(db.sesiones, u), db.nextPomodoro)
  {
    var id := db.nextPomodoro;
    var antes, despues := Indicator(db.pomodoros, CompletadoDeUsuario(db.sesiones, u)),
                          Indicator(d.pomodoros, CompletadoDeUsuario(d.sesiones, u));
    SumPointUpdate(antes, despues, id + 1, id);
    assert antes(id) == 0 && despues(id) == 0;
  }

  /** Starting a pomodoro leaves every user's statistics as they were. */
  lemma IniciarPomodoroEstadisticas(db: Db, idSesion: int, ahora: int, duracionActividad: int, duracionDescanso: int, u: int)
    requires Valid(db)
    ensures ObtenerEstadisticasUsuario(IniciarPomodoro(db, idSesion, ahora, duracionActividad, duracionDescanso).1, u)
         == ObtenerEstadisticasUsuario(db, u)
  {
    var out := IniciarPomodoro(db, idSesion, ahora, duracionActividad, duracionDescanso);
    if out.0.Ok? {
      CompletadosConNuevoAbierto(db, out.1, u);
    }
  }

  /** Completing adds the credited minutes and one completed pomodoro to the
      owner's statistics, and changes no other user's. */
  lemma {:induction false} CompletarEstadisticas(db: Db, id: int, ahora: int, u: int)
    requires Valid(db) && CompletarPomodoro(db, id, ahora).0.Ok?
    ensures
      var out := CompletarPomodoro(db, id, ahora);
      var dueno := db.sesiones[db.pomodoros[id].idSesion].idUsuario;
      var antes, despues := ObtenerEstadisticasUsuario(db, u), ObtenerEstadisticasUsuario(out.1, u);
      && despues.totalMinutos == antes.totalMinutos + (if dueno == u then out.0.value else 0)
      && despues.totalSesiones == antes.totalSesiones
      && despues.totalPomodorosCompletados == antes.totalPomodorosCompletados + (if dueno == u then 1 else 0)
  {
    var d := CompletarPomodoro(db, id, ahora).1;
    CerradoEstadisticas(db, id, Completado, CompletarPomodoro(db, id, ahora).0.value, ahora, d, u);
  }

  /** Cancelling adds the credited minutes to the owner's total but no
      completed pomodoro, and changes no other user's statistics. */
  lemma {:induction false} CancelarEstadisticas(db: Db, id: int, ahora: int, u: int)
    requires Valid(db) && CancelarPomodoro(db, id, ahora).0.Ok?
    ensures
      var out := CancelarPomodoro(db, id, ahora);
      var dueno := db.sesiones[db.pomodoros[id].idSesion].idUsuario;
      var antes, despues := ObtenerEstadisticasUsuario(db, u), ObtenerEstadisticasUsuario(out.1, u);
      && despues.totalMinutos == antes.totalMinutos + (if dueno == u then out.0.value else 0)
      && despues.totalSesiones == antes.totalSesiones
      && despues.totalPomodorosCompletados == antes.totalPomodorosCompletados
  {
    var d := CancelarPomodoro(db, id, ahora).1;
    CerradoEstadisticas(db, id, Cancelado, CancelarPomodoro(db, id, ahora).0.value, ahora, d, u);
  }

  lemma {:induction false} CerradoEstadisticas(db: Db, id: int, estado: Estado, c: int, ahora: int, d: Db, u: int)
    requires Valid(db) && id in db.pomodoros && db.pomodoros[id].estado == EnProgreso
    requires Cerrado(db, id, estado, c, ahora, d)
    ensures
      var dueno := db.sesiones[db.pomodoros[id].idSesion].idUsuario;
      var antes, despues := ObtenerEstadisticasUsuario(db, u), ObtenerEstadisticasUsuario(d, u);
      && despues.totalMinutos == antes.totalMinutos + (if dueno == u then c else 0)
      && despues.totalSesiones == antes.totalSesiones
      && despues.totalPomodorosCompletados
         == antes.totalPomodorosCompletados + (if dueno == u && estado == Completado then 1 else 0)
  {
    var sid := db.pomodoros[id].idSesion;
    SumPointUpdate(TotalDeUsuarioAt(db.sesiones, u), TotalDeUsuarioAt(d.sesiones, u), db.nextSesion, sid);
    SumCongruent(Indicator(db.sesiones, DeUsuario(u)), Indicator(d.sesiones, DeUsuario(u)), db.nextSesion);
    SumPointUpdate(Indicator(db.pomodoros, CompletadoDeUsuario(db.sesiones, u)),
                   Indicator(d.pomodoros, CompletadoDeUsuario(d.sesiones, u)), db.nextPomodoro, id);
  }
}
