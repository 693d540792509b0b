/** Reservation records as the controller sees them: plain JSON objects whose
    `id`, `hotel` and `num_huespedes` keys are the ones the handlers inspect.
    Every other key passes through untouched. */
module Reservas {

  /** A JSON value stored under one key of a reservation. The handlers only
      look inside strings and integral numbers; a non-integral number, an
      array or a nested object is kept as its serialized text. */
  datatype Valor =
    | Nulo
    | Logico(b: bool)
    | Entero(n: int)
    | Texto(s: string)
    | Compuesto(literal: string)

  type Campos = map<string, Valor>

  /** One reservation: the top-level keys of its JSON object. */
  datatype Reserva = Reserva(campos: Campos)

  /** `r.id === id` for a path parameter `id`, which is always a string. */
  predicate TieneId(r: Reserva, id: string) {
    "id" in r.campos && r.campos["id"] == Texto(id)
  }

  /** Whether `r.hotel` is a string, so that `r.hotel.toLowerCase()` does not throw. */
  predicate HotelEsTexto(r: Reserva) {
    "hotel" in r.campos && r.campos["hotel"].Texto?
  }

  /** The object spread `{ ...base, ...encima }`: every key of `encima` takes
      its value from `encima`, every other key of `base` keeps its value. */
  function Esparcir(base: Campos, encima: Campos): (m: Campos)
    ensures m.Keys == base.Keys + encima.Keys
    ensures forall k :: k in encima ==> m[k] == encima[k]
    ensures forall k :: k in base && k !in encima ==> m[k] == base[k]
  {
    base + encima
  }

  /** The record built by `crearReserva`: `{ id: nuevoId, ...cuerpo }`. */
  function NuevaReserva(nuevoId: string, cuerpo: Campos): (r: Reserva)
    ensures r.campos.Keys == cuerpo.Keys + {"id"}
    ensures forall k :: k in cuerpo ==> r.campos[k] == cuerpo[k]
    ensures "id" !in cuerpo ==> r.campos["id"] == Texto(nuevoId)
  {
    Reserva(Esparcir(map["id" := Texto(nuevoId)], cuerpo))
  }

  /** The record built by `actualizarReserva`: `{ ...r, ...cuerpo }`. */
  function Fusionar(r: Reserva, cuerpo: Campos): (m: Reserva)
    ensures m.campos.Keys == r.campos.Keys + cuerpo.Keys
    ensures forall k :: k in cuerpo ==> m.campos[k] == cuerpo[k]
    ensures forall k :: k in r.campos && k !in cuerpo ==> m.campos[k] == r.campos[k]
  {
    Reserva(Esparcir(r.campos, cuerpo))
  }

  /** `toLowerCase` restricted to ASCII letters. */
  function MinusculaAscii(c: char): char {
    if 'A' <= c <= 'Z' then (c as int + 32) as char else c
  }

  /** `toLowerCase` on a string, one character at a time: the result differs
      from `s` at most in ASCII case and holds no ASCII capital letter. */
  function Minusculas(s: string): (r: string)
    ensures IgualSalvoMayusculas(r, s)
    ensures forall i :: 0 <= i < |r| ==> !('A' <= r[i] <= 'Z')
  {
    seq(|s|, i requires 0 <= i < |s| => MinusculaAscii(s[i]))
  }

  /** The two properties of `Minusculas` determine its result. */
  lemma MinusculasUnica(s: string, r: string)
    requires IgualSalvoMayusculas(r, s)
    requires forall i :: 0 <= i < |r| ==> !('A' <= r[i] <= 'Z')
    ensures r == Minusculas(s)
  {
  }

  /** `a` and `b` are the same character, or the upper and lower case of
      one ASCII letter. */
  predicate MismaLetra(a: char, b: char) {
    || a == b
    || ('A' <= a <= 'Z' && b as int == a as int + 32)
    || ('A' <= b <= 'Z' && a as int == b as int + 32)
  }

  /** `a` and `b` differ at most in the case of their ASCII letters. */
  predicate IgualSalvoMayusculas(a: string, b: string) {
    |a| == |b| && forall i :: 0 <= i < |a| ==> MismaLetra(a[i], b[i])
  }

  lemma MinusculaAsciiIguales(a: char, b: char)
    ensures MinusculaAscii(a) == MinusculaAscii(b) <==> MismaLetra(a, b)
  {
  }

  /** Lower-casing makes two strings equal exactly when they differ at most
      in the case of their ASCII letters. */
  lemma MinusculasIguales(a: string, b: string)
    ensures Minusculas(a) == Minusculas(b) <==> IgualSalvoMayusculas(a, b)
  {
    if |a| == |b| {
      forall i | 0 <= i < |a| ensures Minusculas(a)[i] == Minusculas(b)[i] <==> MismaLetra(a[i], b[i]) {
        MinusculaAsciiIguales(a[i], b[i]);
      }
      if IgualSalvoMayusculas(a, b) {
        assert Minusculas(a) == Minusculas(b);
      }
    } else {
      assert |Minusculas(a)| != |Minusculas(b)|;
    }
  }

  /** Lower-casing a second time changes nothing. */
  lemma MinusculasIdempotente(s: string)
    ensures Minusculas(Minusculas(s)) == Minusculas(s)
  {
    var m := Minusculas(s);
    assert forall i :: 0 <= i < |m| ==> Minusculas(m)[i] == m[i];
  }
}
