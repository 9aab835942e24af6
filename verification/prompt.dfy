/**
 * The instruction text sent with every image: the fixed extraction policy, the JSON
 * Schema of a receipt record, and `create_extraction_prompt`, which puts a rendering
 * of the schema between a fixed lead-in line and a fixed closing instruction. The
 * renderer (`json.dumps(..., indent=2)`) is a parameter.
 */
module Prompt {
  import opened JsonValue

  /** The extraction policy passed as `system_prompt`. */
  const SystemPrompt: string :=
    "Extract the following details from the provided image of receipt document. First look for VAT identification number (vatNumber) in the document and associated name of the company (companyName).\nEnsure all fields from the schema are populated if the information is present in the document. If a piece of information is not found, you may omit the field or use a suitable placeholder like 'N/A' if the schema requires it, but prioritize extracting actual values. For numerical values (prices, VAT amount, VAT rate), provide them as numbers (float).\nFor VAT rate, if it's written as e.g. '21%', provide the number 21. Also, extract the date of sale (transaction date) from the receipt always in dd.mm.yyyy format. It might be in dd/mm/yyyy or dd.mm.yyyy format on document. If multiple dates are present (e.g., issue date, due date), use the primary transaction sale date."

  /** One property of the receipt schema: its name, JSON type, whether it carries `"format": "float"`, and its description. */
  datatype Field = Field(name: string, kind: string, isFloat: bool, description: string)

  /** The seven receipt fields, in the order the schema lists them. */
  const Fields: seq<Field> :=
    [
      Field("companyName", "string", false,
        "The legal name of the company that issued the receipt always associated with the VAT identification number. Legal name always includes legal form (e.g. s.r.o., a.s. etc.)"),
      Field("vatNumber", "string", false,
        "The VAT identification number of the company."),
      Field("priceWithoutVAT", "number", true,
        "The total price of goods/services before VAT is applied. Use 0.0 if not explicitly found."),
      Field("vat", "number", true,
        "The total VAT amount charged. Use 0.0 if not explicitly found."),
      Field("vatRate", "number", true,
        "The VAT rate as a percentage (e.g., 21 for 21%). Use 0.0 if not explicitly found."),
      Field("priceIncludingVAT", "number", true,
        "The final price including VAT. This is usually the most prominent total amount."),
      Field("dateOfSale", "string", false,
        "The date of sale or transaction date from the receipt, in dd.mm.yyyy format.")
    ]

  /** The schema entry of one field: type, then format for floats, then description. */
  function FieldSchema(f: Field): Json {
    JObject([("type", JString(f.kind))]
      + (if f.isFloat then [("format", JString("float"))] else [])
      + [("description", JString(f.description))])
  }

  /** The names of some fields as a JSON array. */
  function NameList(fs: seq<Field>): (r: seq<Json>)
    ensures |r| == |fs| && forall i :: 0 <= i < |fs| ==> r[i] == JString(fs[i].name)
  {
    if fs == [] then [] else [JString(fs[0].name)] + NameList(fs[1..])
  }

  /** The "properties" object of some fields, keyed by field name, in order. */
  function Properties(fs: seq<Field>): (r: seq<(string, Json)>)
    ensures |r| == |fs| && forall i :: 0 <= i < |fs| ==> r[i] == (fs[i].name, FieldSchema(fs[i]))
  {
    if fs == [] then [] else [(fs[0].name, FieldSchema(fs[0]))] + Properties(fs[1..])
  }

  /** `json_schema`: an object type whose required names are exactly its property names. */
  const JsonSchema: Json :=
    JObject([
      ("type", JString("object")),
      ("required", JArray(NameList(Fields))),
      ("properties", JObject(Properties(Fields)))
    ])

  const LeadIn: string := "\n\nPlease extract the information according to this JSON schema:\n"
  const Closing: string := "\n\nReturn ONLY valid JSON that matches this schema. Do not include any explanatory text."

  /** `create_extraction_prompt(system_prompt, json_schema)` with `dumps` standing for `json.dumps(..., indent=2)`. */
  function CreateExtractionPrompt(systemPrompt: string, schema: Json, dumps: Json -> string): (r: string)
    ensures |r| == |systemPrompt| + |LeadIn| + |dumps(schema)| + |Closing|
    ensures systemPrompt <= r
  {
    systemPrompt + LeadIn + dumps(schema) + Closing
  }

  /** The prompt `extract_receipt_data` sends: the fixed policy and schema put into the template. */
  function ExtractionPrompt(dumps: Json -> string): string {
    CreateExtractionPrompt(SystemPrompt, JsonSchema, dumps)
  }

  /**
   * The prompt begins with the policy, has the fixed lead-in line right after it, then
   * the schema rendering, and ends with the closing instruction; so the rendering can
   * be read back from the prompt.
   */
  lemma PromptLayout(systemPrompt: string, schema: Json, dumps: Json -> string)
    ensures var p := CreateExtractionPrompt(systemPrompt, schema, dumps);
      var n := |systemPrompt| + |LeadIn|;
      var m := n + |dumps(schema)|;
      && |p| == m + |Closing|
      && p[..|systemPrompt|] == systemPrompt
      && p[|systemPrompt|..n] == LeadIn
      && p[n..m] == dumps(schema)
      && p[m..] == Closing
  {
  }

  /** Two schemas whose renderings differ give two different prompts for the same policy. */
  lemma PromptDeterminesRendering(systemPrompt: string, s1: Json, s2: Json, dumps: Json -> string)
    requires CreateExtractionPrompt(systemPrompt, s1, dumps) == CreateExtractionPrompt(systemPrompt, s2, dumps)
    ensures dumps(s1) == dumps(s2)
  {
    PromptLayout(systemPrompt, s1, dumps);
    PromptLayout(systemPrompt, s2, dumps);
  }

  /** The schema's field names are pairwise distinct, and the required list names every property. */
  lemma SchemaWellFormed()
    ensures forall i, j :: 0 <= i < j < |Fields| ==> Fields[i].name != Fields[j].name
    ensures JsonSchema.members[1].1 == JArray(NameList(Fields))
    ensures forall i :: 0 <= i < |Fields| ==>
      NameList(Fields)[i] == JString(Properties(Fields)[i].0)
  {
  }
}
