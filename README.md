# Hotel reservation store

A model of the reservation controller of a small Express service. The
service keeps hotel reservations as one JSON array in a file. Every handler
loads the whole array, applies one transformation and, when it changes
something, writes the whole array back. The handlers are:

- create a reservation;
- list all reservations;
- read one reservation by id;
- update one by shallow merge;
- delete by id;
- filter by hotel name, ignoring case;
- filter by number of guests.

The model replaces the file with the field `reservas` of a class `Almacen`
("store"). Each handler is a method on it that returns a `Respuesta`: the
status code and body the handler sends. A reservation is a map from JSON key
to JSON value. The handlers read only the keys `id`, `hotel` and
`num_huespedes`; every other key passes through untouched.

The modules:

- `Reservas`: the record, JSON values, the object spread `{ ...a, ...b }`,
  and ASCII lower-casing.
- `Secuencias`: JavaScript's `filter`, `findIndex` and `find`, written for any
  element type and any callback, with the facts that hold for them in general.
  `filter` keeps exactly the accepted elements, in order, and is idempotent.
  `findIndex` and `find` return the first match.
- `Consultas`: the callbacks the handlers pass, the lookup by id, the array
  the delete writes back, and the two filters, with their lemmas.
- `Controlador`: the class `Almacen`, with one method per handler.
- `Propiedades`: lemmas linking several handlers, the id-uniqueness invariant,
  and two short request scenarios (`EscenarioCrearLeerEliminar`,
  `EscenarioFiltros`).

The read-only handlers are methods with no `modifies` clause. Dafny's frame
rules therefore guarantee that they leave the stored array unchanged.

### Where the code and its documented schema disagree

The Swagger schema of a reservation describes `id` as the reservation's
unique id (routes/reservaRoutes.js:11-13). The code does not enforce this,
and the model follows the code:

- On create, the record is `{ id: uuidv4(), ...req.body }`
  (controllers/reservaController.js:15). A body that carries `id` therefore
  replaces the generated id. `Propiedades.CrearPuedeDuplicarId` shows that this
  can store two records with the same id.
- On update, the record is `{ ...reservas[index], ...req.body }`
  (controllers/reservaController.js:45). A body `id` replaces the stored id
  (`Propiedades.FusionarReemplazaId`).
- The id is preserved, and uniqueness is kept, only when the body has no `id`
  key. For create, the new id must also be unused.
  `Propiedades.FusionarConservaId` and the three `...ConservaIdsUnicos` lemmas
  prove this under exactly those hypotheses.

## Model

| member | source | states |
|---|---|---|
| `Reservas.Esparcir` | controllers/reservaController.js:15 | The spread `{ ...base, ...encima }` has the keys of both objects. Keys of `encima` take its values, and every other key keeps its value from `base`. |
| `Reservas.NuevaReserva` | controllers/reservaController.js:15 | The created record holds every body field verbatim and no key other than the body's keys and `id`. Its `id` is the fresh id when the body has no `id`, otherwise the body's `id`. |
| `Reservas.Fusionar` | controllers/reservaController.js:45 | The updated record has the old keys plus the body keys. Body keys take the body's value, and every other key keeps its old value. |
| `Reservas.TieneId` | controllers/reservaController.js:30 | The callback `r.id === id`: the record has an `id` key whose value is the string `id`. |
| `Reservas.HotelEsTexto` | controllers/reservaController.js:67 | The condition under which `reserva.hotel.toLowerCase()` does not throw: `hotel` is present and is a string. |
| `Reservas.Minusculas` | controllers/reservaController.js:67 | The lower-cased string differs from the original at most in the case of ASCII letters, position by position, and contains no ASCII capital letter. |
| `Reservas.MinusculasUnica` | controllers/reservaController.js:67 | Those two properties determine the result: any string that has both is the lower-cased string. |
| `Reservas.MinusculasIguales` | controllers/reservaController.js:67 | Two strings lower-case to the same string exactly when, position by position, they differ at most in the case of an ASCII letter. |
| `Reservas.MinusculasIdempotente` | controllers/reservaController.js:67 | Lower-casing an already lower-cased string changes nothing. |
| `Secuencias.Filtrar` | controllers/reservaController.js:78 | `filter` never returns more elements than it is given, and every element it returns is accepted by the callback. The same function is used at lines 53 and 67. |
| `Secuencias.FiltrarPreservaOrden` | controllers/reservaController.js:53 | `filter` returns the elements at an increasing list of positions. Those positions are exactly the ones whose element the callback accepts, so every accepted element is kept, every rejected one dropped, and order preserved. |
| `Secuencias.PrimerIndice` | controllers/reservaController.js:39 | `findIndex` gives no index only when no element matches. An index it gives is in range, matches, and no earlier element matches. |
| `Secuencias.Buscar` | controllers/reservaController.js:30 | `find`, walking the array front to back, gives nothing exactly when no element matches, and otherwise gives an element the callback accepts. |
| `Secuencias.BuscarEsIndice` | controllers/reservaController.js:30-39 | `find` and `findIndex`, defined separately, agree: both fail together, and `find` returns the element at the index `findIndex` returns. |
| `Secuencias.BuscarPrimero` | controllers/reservaController.js:30 | The element `find` returns sits at a position before which no element matches. |
| `Consultas.Cumple` | controllers/reservaController.js:67 | The hotel callback accepts a record exactly when its `hotel` is a string that differs from the query at most in ASCII case. |
| `Consultas.BuscarPorId` | controllers/reservaController.js:30 | Looking up an id gives nothing exactly when no record carries it. Otherwise it gives a record carrying the id, at a position with no earlier record carrying it. |
| `Consultas.IndicePorId` | controllers/reservaController.js:39 | The position lookup gives nothing (`-1`) exactly when no record carries the id. Otherwise it gives an in-range position that carries the id, with no earlier position carrying it. |
| `Consultas.SinId` | controllers/reservaController.js:53 | The array the delete writes back is no longer than the stored one, and none of its records carries the id. |
| `Consultas.PorHotel` | controllers/reservaController.js:63-68 | An empty query returns the whole array. A non-empty query returns only records whose hotel equals it up to ASCII case, never more than were stored. |
| `Consultas.PorNumHuespedes` | controllers/reservaController.js:78 | Every record kept has `num_huespedes` equal to the parsed count. A count that does not parse keeps nothing. |
| `Consultas.SinIdSelecciona` | controllers/reservaController.js:53 | The delete keeps exactly the records that do not carry the id, at increasing positions, so in their original order. |
| `Consultas.PorNumHuespedesSelecciona` | controllers/reservaController.js:78 | The guest-count filter keeps exactly the records whose `num_huespedes` is the parsed count, in their original order. |
| `Consultas.SinIdContenido` | controllers/reservaController.js:53 | After the delete, no record carries the id, every surviving record was stored before, and every stored record with a different id survives. |
| `Consultas.BuscarTrasEliminar` | controllers/reservaController.js:53 | Looking up a deleted id finds nothing. |
| `Consultas.EliminarIdempotente` | controllers/reservaController.js:53 | Deleting the same id twice gives the same collection as deleting it once. |
| `Consultas.EliminarAusente` | controllers/reservaController.js:53-57 | Deleting an id no record carries leaves the collection as it is. |
| `Consultas.PorHotelIgnoraMayusculas` | controllers/reservaController.js:63-68 | Two hotel queries that differ only in the case of ASCII letters, position by position, give the same result. This includes the empty query, which equals only itself. |
| `Consultas.PorHotelSelecciona` | controllers/reservaController.js:63-68 | A non-empty hotel query keeps exactly the records whose hotel matches up to case, in their original order, and never more records than were stored. |
| `Consultas.PorNumHuespedesVacio` | controllers/reservaController.js:78-83 | The guest-count filter is empty exactly when no record has that integer as `num_huespedes`. |
| `Consultas.PorNumHuespedesNaN` | controllers/reservaController.js:74-78 | A count that parses to `NaN` matches no record. |
| `Controlador.Almacen.constructor` | controllers/reservaController.js:7-10 | The store starts with the given array: what `leerReservas` would load. |
| `Controlador.Almacen.CrearReserva` | controllers/reservaController.js:13-21 | Answers 201 with the spread record and appends exactly that record at the end. Every earlier record is unchanged. |
| `Controlador.Almacen.ObtenerReservas` | controllers/reservaController.js:23-26 | Answers 200 with the whole stored array and changes nothing. |
| `Controlador.Almacen.ObtenerReserva` | controllers/reservaController.js:28-35 | Answers 404 exactly when no record carries the id. Otherwise it answers 200 with the first record that carries it. It changes nothing. |
| `Controlador.Almacen.ActualizarReserva` | controllers/reservaController.js:37-49 | Answers 404 leaving the array unchanged exactly when no record carries the id. Otherwise it replaces only the first matching position by the merged record, keeps the length, and returns the merged record. |
| `Controlador.Almacen.EliminarReserva` | controllers/reservaController.js:51-58 | Stores the records whose id differs from the argument, in order, and always answers 204. |
| `Controlador.Almacen.FiltrarReservasPorHotel` | controllers/reservaController.js:60-71 | Always answers 200, even with an empty list. An empty query returns the whole array. A non-empty one returns, in order, exactly the records whose hotel equals it up to case. It changes nothing. |
| `Controlador.Almacen.FiltrarReservasPorNumHuespedes` | controllers/reservaController.js:73-85 | Answers 404 exactly when no record has that guest count, and answers 404 for `NaN`. Otherwise it answers 200 with the non-empty, order-preserving filter result. It changes nothing. |
| `Propiedades.BuscarTrasCrear` | controllers/reservaController.js:15-16 | When the fresh id is unused and the body has no `id`, looking up the fresh id after create returns the created record. |
| `Propiedades.FusionarVacio` | controllers/reservaController.js:45 | Merging an empty body gives back the same record. |
| `Propiedades.ActualizarVacio` | controllers/reservaController.js:45-46 | An update with an empty body writes back the collection unchanged. |
| `Propiedades.FusionarConservaId` | controllers/reservaController.js:45 | An update body without `id` keeps the record's id, or its absence. |
| `Propiedades.FusionarReemplazaId` | controllers/reservaController.js:45 | An update body with `id` replaces the stored id. |
| `Propiedades.CrearConservaIdsUnicos` | controllers/reservaController.js:15-16 | Create keeps ids pairwise distinct when the fresh id is unused and the body has no `id`. |
| `Propiedades.ActualizarConservaIdsUnicos` | controllers/reservaController.js:45 | Update keeps ids pairwise distinct when the body has no `id`. |
| `Propiedades.EliminarConservaIdsUnicos` | controllers/reservaController.js:53 | Delete always keeps ids pairwise distinct. |
| `Propiedades.CrearPuedeDuplicarId` | controllers/reservaController.js:15 | A concrete case: a collection with unique ids, plus a create whose body repeats a stored id, gives a collection with a duplicate id. |

## Left out

- File I/O and JSON: `fs.readFileSync`, `JSON.parse`, `fs.writeFileSync` and `JSON.stringify` (controllers/reservaController.js:8-9, 18, 46, 55) become the field `reservas`. A missing, unreadable or corrupt file, and a failed write, are not modelled.
- JSON details: the order of keys within an object is not modelled, since a record is a map. Non-integral numbers, arrays and nested objects are a single opaque `Compuesto` value, because no handler looks inside them.
- A request body that is an array or a primitive rather than an object is not modelled. A body is a map of fields, and a missing body is the empty map.
- UUID generation is a call into the `uuid` library. It becomes the parameter `nuevoId` of `CrearReserva`. Freshness is a hypothesis of the lemmas that need it, never a requirement of the method, because the code does not check it.
- `parseInt(req.params.numHuespedes, 10)` is not modelled. The handler receives its result as `Option<int>`, with `None` for `NaN`.
- `toLowerCase` is modelled on ASCII letters only. Unicode case mapping, including mappings that change the length, is not modelled.
- FiltrarReservasPorHotel: a record whose `hotel` is missing or is not a string makes `toLowerCase` throw. The method instead requires every record to have a string `hotel` whenever the query is non-empty, so the exception is not modelled.
- HTTP status codes and response objects are abstracted to the `Respuesta` datatype. The wording of the 404 error messages is not kept.
- Routing (routes/reservaRoutes.js), the OpenAPI configuration (swaggerConfig.js) and server start-up (server.js) are wiring and are not modelled. The route file documents DELETE but never registers it, so `eliminarReserva` cannot be reached over HTTP. It is modelled anyway, as a store operation.
- Concurrency is not modelled: two requests interleaving their read and write of the file can lose an update. The model is single-writer.
- Filters by room type or date range are not modelled. The schema declares `tipo_habitacion`, `fecha_inicio` and `fecha_fin` (routes/reservaRoutes.js:17-30), but no route or handler filters on them.
- `Valor.Entero` holds an unbounded integer, while a JSON number is a double. Two stored guest counts above 2^53 that are distinct integers can be the same double, and the `===` at controllers/reservaController.js:78 then treats them as equal; the model keeps them apart.
- Strings are sequences of Unicode scalar values, while the `===` at controllers/reservaController.js:30, 39 and 53 compares UTF-16 code units. A string holding a lone surrogate, such as `"\uD800"`, has no counterpart in the model.
