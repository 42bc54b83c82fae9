/** How many minutes a finished pomodoro is worth. Instants are whole seconds
    (UTC); the service's clock is read by the caller and passed in. */
module Timing {

  /** Whole minutes from inicio to ahora: the elapsed seconds divided by 60 and
      truncated toward zero, as int() truncates the quotient. */
  function MinutosTranscurridos(inicio: int, ahora: int): (m: int)
    ensures ahora - inicio >= 0 ==> m >= 0 && 60 * m <= ahora - inicio < 60 * m + 60
    ensures ahora - inicio < 0 ==> m <= 0 && 60 * m - 60 < ahora - inicio <= 60 * m
  {
    var e := ahora - inicio;
    if e >= 0 then e / 60 else -((-e) / 60)
  }

  /** Minutes credited when a pomodoro is completed: the elapsed minutes capped
      at the planned activity length, then raised to at least 1. */
  function CreditoCompletar(minutos: int, duracionActividad: int): (c: int)
    ensures c >= 1
    ensures duracionActividad >= 1 ==> c <= duracionActividad
    ensures 1 <= minutos <= duracionActividad ==> c == minutos
    ensures 1 <= duracionActividad < minutos ==> c == duracionActividad
    ensures minutos < 1 || duracionActividad < 1 ==> c == 1
  {
    var capped := if minutos > duracionActividad then duracionActividad else minutos;
    if capped < 1 then 1 else capped
  }

  /** Minutes credited when a pomodoro is cancelled: the elapsed minutes raised
      to at least 1, with no upper bound. */
  function CreditoCancelar(minutos: int): (c: int)
    ensures c >= 1 && c >= minutos
    ensures minutos >= 1 ==> c == minutos
    ensures minutos < 1 ==> c == 1
  {
    if minutos < 1 then 1 else minutos
  }

  /** For the same elapsed time, completing never credits more than cancelling,
      and the two differ exactly when more than one minute and more than the
      planned length has elapsed. */
  lemma CompletarFrenteACancelar(minutos: int, duracionActividad: int)
    ensures CreditoCompletar(minutos, duracionActividad) <= CreditoCancelar(minutos)
    ensures CreditoCompletar(minutos, duracionActividad) == CreditoCancelar(minutos)
        <==> minutos <= duracionActividad || minutos <= 1
  {
  }

  /** A 25-minute pomodoro completed at once, after 10 minutes, and after 40 minutes. */
  lemma EjemplosCompletar()
    ensures CreditoCompletar(MinutosTranscurridos(0, 0), 25) == 1
    ensures CreditoCompletar(MinutosTranscurridos(0, 59), 25) == 1
    ensures CreditoCompletar(MinutosTranscurridos(0, 10 * 60), 25) == 10
    ensures CreditoCompletar(MinutosTranscurridos(0, 10 * 60 + 59), 25) == 10
    ensures CreditoCompletar(MinutosTranscurridos(0, 40 * 60), 25) == 25
  {
  }

  /** A 25-minute pomodoro cancelled after an hour is credited 60 minutes, more
      than the 25 completing it would have credited. */
  lemma CancelarSinTope()
    ensures CreditoCancelar(MinutosTranscurridos(0, 3600)) == 60
    ensures CreditoCompletar(MinutosTranscurridos(0, 3600), 25) == 25
  {
  }

  /** A clock that reads earlier than the start still credits one minute. */
  lemma RelojAtrasado(inicio: int, ahora: int, duracionActividad: int)
    requires ahora < inicio
    ensures CreditoCompletar(MinutosTranscurridos(inicio, ahora), duracionActividad) == 1
    ensures CreditoCancelar(MinutosTranscurridos(inicio, ahora)) == 1
  {
  }
}
