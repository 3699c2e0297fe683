/**
 * The data-access defaults that start-up configuration produces, and the
 * process-wide slot that holds them (GlobalConfig, GlobalConfig.DbConfig,
 * GlobalConfigCache and the IdType / FieldStrategy enums of the core library).
 */
module CoreConfig {
  import opened Wrappers

  /** A constant of the IdType enum (identifier generation), by its name. */
  datatype IdType = IdType(name: string)

  /** A constant of the FieldStrategy enum (which fields an update writes), by its name. */
  datatype FieldStrategy = FieldStrategy(name: string)

  /** GlobalConfig.DbConfig: index name prefix, id strategy and field update strategy. */
  datatype DbConfig = DbConfig(tablePrefix: string, idType: IdType, fieldStrategy: FieldStrategy)

  /** GlobalConfig, reduced to the part start-up configuration fills in. */
  datatype GlobalConfig = GlobalConfig(dbConfig: DbConfig)

  /** GlobalConfigCache: one overwritable slot, empty until something is stored. */
  class GlobalConfigCache {
    var globalConfig: Option<GlobalConfig>

    constructor ()
      ensures globalConfig == None
    {
      globalConfig := None;
    }

    /** Replaces whatever the slot held. */
    method SetGlobalConfig(config: GlobalConfig)
      modifies this
      ensures globalConfig == Some(config)
    {
      globalConfig := Some(config);
    }
  }
}
