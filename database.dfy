/** The errors the database client reports, shared by the services. */
module Database {

  /** An error reported by the database, identified by its PostgREST/PostgreSQL code. */
  datatype StoreError = StoreError(code: string)

  /** The code PostgREST reports when `maybeSingle` finds no single row; `toggleLike` tolerates it. */
  const NoSingleRowCode: string := "PGRST116"

  /** PostgreSQL's unique-key violation, the answer to a second row with the same key. */
  const UniqueViolationCode: string := "23505"
}
