/** The reservation controller. Every handler loads the stored array, applies
    one transformation and, when it mutates, writes the whole array back; here
    the stored array is the field `reservas` of an `Almacen`, and each handler
    is a method on it that returns what the handler sends back. */
module Controlador {
  import opened Secuencias
  import opened Reservas
  import opened Consultas

  /** The response a handler sends: its status code and its JSON body. */
  datatype Respuesta =
    | Creada(reserva: Reserva)         // 201 with the new record
    | Ok(reserva: Reserva)             // 200 with one record
    | Lista(reservas: seq<Reserva>)    // 200 with an array of records
    | NoEncontrada                     // 404 with an error object
    | SinContenido                     // 204 with an empty body

  class Almacen {
    /** The array held in the reservations file. */
    var reservas: seq<Reserva>

    constructor (iniciales: seq<Reserva>)
      ensures reservas == iniciales
    {
      reservas := iniciales;
    }

    /** `crearReserva`: builds `{ id: nuevoId, ...cuerpo }`, pushes it at the
        end of the array and answers 201 with it. `nuevoId` stands for the
        value of `uuidv4()`. */
    method CrearReserva(nuevoId: string, cuerpo: Campos) returns (res: Respuesta)
      modifies this
      ensures res == Creada(NuevaReserva(nuevoId, cuerpo))
      ensures reservas == old(reservas) + [res.reserva]
    {
      var nueva := NuevaReserva(nuevoId, cuerpo);
      reservas := reservas + [nueva];
      res := Creada(nueva);
    }

    /** `obtenerReservas`: the whole array. */
    method ObtenerReservas() returns (res: Respuesta)
      ensures res == Lista(reservas)
    {
      res := Lista(reservas);
    }

    /** `obtenerReserva`: the first record whose `id` is `id`, or 404. */
    method ObtenerReserva(id: string) returns (res: Respuesta)
      ensures res.Ok? || res.NoEncontrada?
      ensures res.NoEncontrada? <==> forall j :: 0 <= j < |reservas| ==> !TieneId(reservas[j], id)
      ensures res.Ok? ==> TieneId(res.reserva, id)
      ensures res.Ok? ==> exists i :: 0 <= i < |reservas| && reservas[i] == res.reserva &&
                                      forall j :: 0 <= j < i ==> !TieneId(reservas[j], id)
    {
      var encontrada := BuscarPorId(reservas, id);
      if encontrada.None? {
        res := NoEncontrada;
      } else {
        res := Ok(encontrada.value);
      }
    }

    /** `actualizarReserva`: 404 leaving the array alone when no record has
        `id`; otherwise the first such record becomes `{ ...anterior, ...cuerpo }`,
        the array is written back and the merged record is returned. */
    method ActualizarReserva(id: string, cuerpo: Campos) returns (res: Respuesta)
      modifies this
      ensures res.Ok? || res.NoEncontrada?
      ensures res.NoEncontrada? <==> forall j :: 0 <= j < |old(reservas)| ==> !TieneId(old(reservas)[j], id)
      ensures res.NoEncontrada? ==> reservas == old(reservas)
      ensures IndicePorId(old(reservas), id).Some? ==>
                var i := IndicePorId(old(reservas), id).value;
                && reservas == old(reservas)[i := Fusionar(old(reservas)[i], cuerpo)]
                && res == Ok(reservas[i])
    {
      var indice := IndicePorId(reservas, id);
      if indice.None? {
        res := NoEncontrada;
      } else {
        var i := indice.value;
        reservas := reservas[i := Fusionar(reservas[i], cuerpo)];
        res := Ok(reservas[i]);
      }
    }

    /** `eliminarReserva`: keeps the records whose `id` is not `id`, writes
        them back and answers 204, whether or not anything was removed. */
    method EliminarReserva(id: string) returns (res: Respuesta)
      modifies this
      ensures reservas == SinId(old(reservas), id)
      ensures res == SinContenido
    {
      reservas := SinId(reservas, id);
      res := SinContenido;
    }

    /** `filtrarReservasPorHotel`: always 200; the whole array for an empty
        `hotel`, otherwise the records whose hotel equals it up to case. */
    method FiltrarReservasPorHotel(hotel: string) returns (res: Respuesta)
      requires hotel != "" ==> forall j :: 0 <= j < |reservas| ==> HotelEsTexto(reservas[j])
      ensures res == Lista(PorHotel(reservas, hotel))
      ensures hotel == "" ==> res.reservas == reservas
      ensures hotel != "" ==> forall k :: 0 <= k < |res.reservas| ==>
                res.reservas[k] in reservas && Cumple(MismoHotel(hotel), res.reservas[k])
      ensures hotel != "" ==> forall j :: 0 <= j < |reservas| && Cumple(MismoHotel(hotel), reservas[j]) ==>
                reservas[j] in res.reservas
    {
      if hotel != "" {
        FiltrarPertenencia(reservas, Acepta(MismoHotel(hotel)));
      }
      res := Lista(PorHotel(reservas, hotel));
    }

    /** `filtrarReservasPorNumHuespedes`: 200 with the records whose
        `num_huespedes` is the parsed count when there is at least one,
        404 otherwise. `n` is the result of `parseInt`, `None` for `NaN`. */
    method FiltrarReservasPorNumHuespedes(n: Option<int>) returns (res: Respuesta)
      ensures res.Lista? || res.NoEncontrada?
      ensures res.NoEncontrada? <==> forall j :: 0 <= j < |reservas| ==> !Cumple(NumHuespedes(n), reservas[j])
      ensures res.Lista? ==> res.reservas == PorNumHuespedes(reservas, n) && res.reservas != []
      ensures n.None? ==> res == NoEncontrada
    {
      var filtradas := PorNumHuespedes(reservas, n);
      PorNumHuespedesVacio(reservas, n);
      if |filtradas| > 0 {
        res := Lista(filtradas);
      } else {
        res := NoEncontrada;
      }
    }
  }
}
