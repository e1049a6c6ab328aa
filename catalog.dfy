/** The service catalogue that `load_default_services` seeds into an empty `services` table. */
module Catalog {
  import opened Records

  /** The 13 default (title, price text) pairs, in the order they are inserted. */
  const DefaultServices: seq<(string, string)> := [
    ("Создание контента с нуля", "300"),
    ("Обработка материала заказчика", "200"),
    ("Актуализация и сопровождение", "800"),
    ("Индивидуальная консультация (устно)", "4000"),
    ("Индивидуальная консультация (письменно)", "3000"),
    ("Создание лонгрида", "200"),
    ("Практико-ориентированное задание", "500"),
    ("Вставка видео + вопросы", "300"),
    ("Вопросы для размышления", "75"),
    ("Материалы для самостоятельного изучения + вопросы", "300"),
    ("PowerPoint (без эффектов)", "500"),
    ("PowerPoint (с эффектами)", "800"),
    ("Дизайн курса в iSpring Suite (.SCORM)", "3500")
  ]

  /** The rows that inserting `defs` one by one adds when the id counter stands at `start`. */
  function Seeded(defs: seq<(string, string)>, start: int): (rows: seq<Service>)
    ensures |rows| == |defs|
  {
    seq(|defs|, i requires 0 <= i < |defs| => Service(start + i, defs[i].0, defs[i].1))
  }

  /** The catalogue after `load_default_services`, given the table and its id counter. */
  function SeedDefaults(services: seq<Service>, next: int): seq<Service> {
    if |services| == 0 then Seeded(DefaultServices, next) else services
  }

  /** Seeding fills an empty catalogue with the 13 defaults in list order, ids counting up
      from the counter; a catalogue with any row is left as it is. */
  lemma SeedDefaultsContents(services: seq<Service>, next: int)
    ensures services == [] ==> |SeedDefaults(services, next)| == 13
    ensures services == [] ==> forall i :: 0 <= i < 13 ==>
      SeedDefaults(services, next)[i] == Service(next + i, DefaultServices[i].0, DefaultServices[i].1)
    ensures services != [] ==> SeedDefaults(services, next) == services
  {
  }

  /** Seeding twice has the effect of seeding once, whatever the counter is by then. */
  lemma SeedDefaultsIdempotent(services: seq<Service>, next: int, later: int)
    ensures SeedDefaults(SeedDefaults(services, next), later) == SeedDefaults(services, next)
  {
  }

  /** The seeded ids are consecutive from the counter, so they extend a valid table. */
  lemma {:induction false} SeededAppend(defs: seq<(string, string)>, start: int, title: string, price: string)
    ensures Seeded(defs, start) + [Service(start + |defs|, title, price)] == Seeded(defs + [(title, price)], start)
  {
  }
}
