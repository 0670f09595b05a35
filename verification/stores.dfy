/** The two stores the system keeps, shared by the ingestion loop and the read gateway. */
module Backends {
  import Cache
  import Durable

  /** Redis and Postgres, as one value. */
  datatype Stores = Stores(cache: Cache.Store, db: Durable.Db)
}
