/**
 * The static service catalogue of the booking server (key -> name, duration
 * in minutes, price in reais) and the price table the booking widget keeps
 * beside it.
 */
module Catalog {
  import opened Wrappers
  import opened Http

  datatype Service = Service(name: string, duration: nat, price: nat)

  /** The server's catalogue, `SERVICES` in the booking server. */
  const Services: map<string, Service> := map[
    "volume-brasileiro" := Service("Volume Brasileiro", 90, 130),
    "volume-5d" := Service("Volume 5D", 90, 150),
    "mega-volume" := Service("Mega Volume", 120, 180),
    "designer-simples" := Service("Designer de Sobrancelha Simples", 30, 30),
    "designer-henna" := Service("Designer de Sobrancelha com Henna", 45, 50),
    "limpeza-pele" := Service("Limpeza de Pele / Dermaplaning", 60, 100),
    "manutencao-vb-5d" := Service("Manutenção (Vol. Brasileiro/5D)", 60, 95),
    "manutencao-mega" := Service("Manutenção (Mega Volume)", 60, 100),
    "remocao" := Service("Remoção", 30, 30)
  ]

  /** The widget's own table: display name and price, no duration. */
  const WidgetServices: map<string, (string, nat)> := map[
    "volume-brasileiro" := ("Volume Brasileiro", 130),
    "volume-5d" := ("Volume 5D", 150),
    "mega-volume" := ("Mega Volume", 180),
    "designer-simples" := ("Designer de Sobrancelha", 30),
    "designer-henna" := ("Designer com Henna", 50),
    "limpeza-pele" := ("Dermaplaning", 100),
    "manutencao-vb-5d" := ("Manutenção (Vol. Brasileiro/5D)", 95),
    "manutencao-mega" := ("Manutenção (Mega Volume)", 100),
    "remocao" := ("Remoção", 30)
  ]

  /** Both handlers answer an unknown service id with this response. */
  const InvalidService := HttpError(400, "Serviço inválido")

  /**
   * The names `SERVICES`, an object literal, inherits from
   * `Object.prototype`. Indexing it with one of them finds a function (or,
   * for `__proto__`, the prototype itself): a truthy value without a
   * `duration`, `name` or `price`.
   */
  const PrototypeKeys: set<string> := {
    "constructor", "__defineGetter__", "__defineSetter__", "hasOwnProperty",
    "__lookupGetter__", "__lookupSetter__", "isPrototypeOf", "propertyIsEnumerable",
    "toString", "valueOf", "__proto__", "toLocaleString"
  }

  /** What `SERVICES[serviceId]` finds: a catalogue entry, an inherited member, or `undefined`. */
  datatype Found = Entry(service: Service) | Inherited | Undefined

  /** `SERVICES[serviceId]`; only `Undefined` fails the handlers' `!service` test. */
  function Lookup(id: string): (r: Found)
    ensures r.Entry? <==> id in Services
    ensures r.Entry? ==> r.service == Services[id] && r.service.duration > 0
    ensures r.Inherited? <==> id !in Services && id in PrototypeKeys
    ensures r.Undefined? <==> id !in Services && id !in PrototypeKeys
  {
    if id in Services then Entry(Services[id])
    else if id in PrototypeKeys then Inherited
    else Undefined
  }

  /** Every catalogue duration is positive, so every slot and event is a non-empty interval. */
  lemma DurationsPositive()
    ensures forall id :: id in Services ==> Services[id].duration > 0
  {
  }

  /** The widget offers exactly the server's keys, at the server's prices. */
  lemma WidgetAgreesWithServer()
    ensures WidgetServices.Keys == Services.Keys
    ensures forall id :: id in Services ==> WidgetServices[id].1 == Services[id].price
  {
  }
}
