/** The profile page's statistics (src/pages/MiPerfil.tsx): the average points per
    contest and the best contest in the user's history. */
module Profile {
  import opened Common

  /** An entry of the participation history. */
  datatype Participacion = Participacion(
    id: int, concurso: string, codigo: string, puntos: int, fecha: string, hora: string)

  /** `historial.length > 0 ? Math.round(totalPuntos / historial.length) : 0` */
  function Average(totalPuntos: int, historial: seq<Participacion>): (avg: int)
    ensures historial == [] ==> avg == 0
    ensures historial != [] ==>
              var n := |historial|;
              2 * n * avg - n <= 2 * totalPuntos < 2 * n * avg + n
  {
    if |historial| > 0 then RoundQuotient(totalPuntos, |historial|) else 0
  }

  /** The average is the nearest integer to the exact quotient, halves rounded up,
      exactly as `Math.round` does on the floating-point quotient. */
  lemma AverageAsWritten(totalPuntos: int, historial: seq<Participacion>)
    requires historial != []
    ensures Average(totalPuntos, historial)
            == (totalPuntos as real / |historial| as real + 0.5).Floor
  {
    RoundOfQuotient(totalPuntos, |historial|);
  }

  /** `historial.reduce((max, p) => p.puntos > max.puntos ? p : max)`, as the position
      of the entry it returns; the page evaluates it only for a non-empty history,
      where reduce needs no initial value. */
  function MaxIndex(historial: seq<Participacion>): (i: nat)
    requires historial != []
    ensures i < |historial|
    ensures forall j :: 0 <= j < |historial| ==> historial[j].puntos <= historial[i].puntos
    ensures forall j :: 0 <= j < i ==> historial[j].puntos < historial[i].puntos
    decreases |historial|
  {
    if |historial| == 1 then 0
    else
      var m := MaxIndex(historial[..|historial| - 1]);
      if historial[|historial| - 1].puntos > historial[m].puntos then |historial| - 1 else m
  }

  function MaxParticipacion(historial: seq<Participacion>): Participacion
    requires historial != []
  {
    historial[MaxIndex(historial)]
  }

  /** The best contest is an entry of the history with the most points; among
      entries tied for the most, the earliest is shown. */
  lemma BestContestIsEarliestMaximum(historial: seq<Participacion>, k: nat)
    requires k < |historial|
    requires forall j :: 0 <= j < |historial| ==> historial[j].puntos <= historial[k].puntos
    requires forall j :: 0 <= j < k ==> historial[j].puntos < historial[k].puntos
    ensures MaxParticipacion(historial) == historial[k]
  {
    var i := MaxIndex(historial);
    assert historial[i].puntos == historial[k].puntos;
  }
}
