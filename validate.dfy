/** The allow-list check on free-text fields: a string passes when it is made
    of one or more word characters, whitespace, '.', '-' and '@'. */
module Validate {

  /** What the check is handed: Python's None, a str, or any other object. */
  datatype Valor = Ninguno | Texto(s: string) | OtroTipo

  /** The check returns nothing, or raises an HTTP error with this status. */
  datatype Validacion = Aceptado | Rechazado(status: int)

  /** What \s matches in a str pattern: the characters for which str.isspace() holds. */
  predicate EsEspacio(c: char)
  {
    || '\t' <= c <= '\r'
    || '\U{1c}' <= c <= '\U{1f}'
    || c == ' ' || c == '\U{85}' || c == '\U{a0}' || c == '\U{1680}'
    || '\U{2000}' <= c <= '\U{200a}'
    || c == '\U{2028}' || c == '\U{2029}' || c == '\U{202f}' || c == '\U{205f}' || c == '\U{3000}'
  }

  /** The character class [\w\s\.\-\@]; esPalabra says which characters \w matches. */
  predicate Permitido(c: char, esPalabra: char -> bool)
  {
    esPalabra(c) || EsEspacio(c) || c == '.' || c == '-' || c == '@'
  }

  /** The pattern ^[\w\s\.\-\@]+$ matched from the start of s: one allowed
      character followed by either the end of s or a match of the rest. ($ may
      also match before a final newline, but a newline is itself allowed, so
      this changes no verdict.) */
  predicate CoincidePatron(s: string, esPalabra: char -> bool)
  {
    |s| >= 1 && Permitido(s[0], esPalabra) && (|s| == 1 || CoincidePatron(s[1..], esPalabra))
  }

  /** The pattern matches exactly the non-empty strings of allowed characters. */
  lemma {:induction false} CoincidePatronSiTodosPermitidos(s: string, esPalabra: char -> bool)
    ensures CoincidePatron(s, esPalabra) <==> s != [] && forall i :: 0 <= i < |s| ==> Permitido(s[i], esPalabra)
  {
    if |s| > 1 {
      CoincidePatronSiTodosPermitidos(s[1..], esPalabra);
      assert forall i :: 1 <= i < |s| ==> s[i] == s[1..][i - 1];
    }
  }

  /** validar_string: None passes, a non-string is refused with 400, and a
      string passes exactly when it is non-empty and every character is allowed;
      otherwise 400. */
  function ValidarString(texto: Valor, esPalabra: char -> bool): (r: Validacion)
    ensures r.Rechazado? ==> r.status == 400
    ensures r == Aceptado <==>
      || texto.Ninguno?
      || (texto.Texto? && texto.s != [] && forall i :: 0 <= i < |texto.s| ==> Permitido(texto.s[i], esPalabra))
  {
    match texto
    case Ninguno => Aceptado
    case OtroTipo => Rechazado(400)
    case Texto(s) =>
      CoincidePatronSiTodosPermitidos(s, esPalabra);
      if CoincidePatron(s, esPalabra) then Aceptado else Rechazado(400)
  }

  /** \w agrees with Python's on ASCII: it matches the letters, the digits and '_'. */
  ghost predicate PalabraAscii(esPalabra: char -> bool)
  {
    forall c: char :: c < '\U{80}' ==>
      (esPalabra(c) <==> 'a' <= c <= 'z' || 'A' <= c <= 'Z' || '0' <= c <= '9' || c == '_')
  }

  /** An ASCII character that is not a letter, digit, '_', whitespace, '.', '-'
      or '@' anywhere in the string (such as '<', '!' or '/') gets it refused. */
  lemma RechazaAsciiNoPermitido(s: string, i: int, esPalabra: char -> bool)
    requires PalabraAscii(esPalabra)
    requires 0 <= i < |s| && s[i] < '\U{80}'
    requires !('a' <= s[i] <= 'z' || 'A' <= s[i] <= 'Z' || '0' <= s[i] <= '9' || s[i] == '_')
    requires !(EsEspacio(s[i]) || s[i] == '.' || s[i] == '-' || s[i] == '@')
    ensures ValidarString(Texto(s), esPalabra) == Rechazado(400)
  {
  }

  lemma EjemplosRechazados(esPalabra: char -> bool)
    requires PalabraAscii(esPalabra)
    ensures ValidarString(Ninguno, esPalabra) == Aceptado
    ensures ValidarString(OtroTipo, esPalabra) == Rechazado(400)
    ensures ValidarString(Texto(""), esPalabra) == Rechazado(400)
    ensures ValidarString(Texto("<b>"), esPalabra) == Rechazado(400)
    ensures ValidarString(Texto("hola!"), esPalabra) == Rechazado(400)
    ensures ValidarString(Texto("a/b"), esPalabra) == Rechazado(400)
  {
  }

  lemma EjemploAceptado(esPalabra: char -> bool)
    requires PalabraAscii(esPalabra)
    ensures ValidarString(Texto("ana.p-1@x y_"), esPalabra) == Aceptado
  {
    var s := "ana.p-1@x y_";
    forall i | 0 <= i < |s|
      ensures Permitido(s[i], esPalabra)
    {
      if !(s[i] in ".-@ ") {
        assert s[i] in "anp1xy_";
      }
    }
  }
}
