// Shared vocabulary: optional values and identifiers of stored records.
module Common {
  datatype Option<+T> = None | Some(value: T)

  // Object ids are canonical, so an id is equal to another exactly when they name the same record;
  // their numeric order stands for the order of the id strings.
  type Id = nat

  // Redis and the services read one clock; an instant is a whole number of its ticks.
  type Instant = int

  datatype Role = User | Admin | SuperAdmin

  const DAY_MS: int := 24 * 60 * 60 * 1000

  function Max(a: int, b: int): (m: int) {
    if a < b then b else a
  }
}
