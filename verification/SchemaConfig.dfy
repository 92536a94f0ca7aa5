/** The part of a configuration that names types: what is declared, and what refers to what. */
module SchemaConfig {
  import opened Options

  datatype Field = Field(typeName: string, args: seq<string>)
  datatype Type = Type(fields: seq<Field>, implements: seq<string>)
  datatype RootSchema = RootSchema(query: Option<string>, mutation: Option<string>, subscription: Option<string>)

  datatype Config = Config(
    schema: RootSchema,
    types: map<string, Type>,
    unions: map<string, seq<string>>,
    enums: set<string>) {

    /** A declared type is a scalar when it has no fields; any other name when it is predefined. */
    predicate IsScalar(name: string) {
      if name in types then types[name].fields == [] else IsPredefined(name)
    }

    /** The operation roots that the schema names, in the order in which they are visited. */
    function Roots(): seq<string> {
      Named(schema.query) + Named(schema.mutation) + Named(schema.subscription)
    }
  }

  function Named(root: Option<string>): seq<string> {
    if root.Some? then [root.value] else []
  }

  /** The three roots, each if it is named. */
  lemma RootsMeaning(cfg: Config, name: string)
    ensures name in cfg.Roots() <==>
            || cfg.schema.query == Some(name)
            || cfg.schema.mutation == Some(name)
            || cfg.schema.subscription == Some(name)
  {
  }

  const PREDEFINED_SCALARS: set<string> := {
    "Boolean", "Float", "ID", "Int", "String",
    "Empty", "Email", "PhoneNumber", "Date", "DateTime", "Url", "JSON",
    "Int8", "Int16", "Int32", "Int64", "Int128",
    "UInt8", "UInt16", "UInt32", "UInt64", "UInt128", "Bytes"
  }

  predicate IsPredefined(name: string) {
    name in PREDEFINED_SCALARS
  }
}
