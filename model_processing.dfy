/**
 * Model naming and model-property post-processing of the MSF4J server
 * generator: generated model classes carry a `DTO` suffix, an example value
 * spelled "null" is dropped, and every model imports gson's `SerializedName`
 * annotation.
 */
module ModelProcessing {
  import opened JavaStrings

  /** A Java reference that may be null. */
  datatype Option<T> = None | Some(value: T)

  /** The suffix appended to every schema name to form its model class name. */
  const ModelSuffix: string := "DTO"

  /** The example text that stands for "no example". */
  const NullExample: string := "null"

  /** The annotation every generated model imports. */
  const SerializedName: string := "SerializedName"

  /** The model class name generated for the schema `name`. */
  function ToModelName(name: string): (r: string)
    ensures |r| == |name| + |ModelSuffix|
    ensures StartsWith(r, name) && EndsWith(r, ModelSuffix)
  {
    name + ModelSuffix
  }

  /** The schema name behind a model class name: the name without its suffix. */
  function SchemaName(modelName: string): (r: Option<string>)
    ensures r.Some? <==> EndsWith(modelName, ModelSuffix)
    ensures r.Some? ==> |r.value| + |ModelSuffix| == |modelName| && StartsWith(modelName, r.value)
  {
    if EndsWith(modelName, ModelSuffix) then Some(modelName[..|modelName| - |ModelSuffix|]) else None
  }

  /** Model names can be traced back to their schema names. */
  lemma {:induction false} SchemaNameOfModelName(name: string)
    ensures SchemaName(ToModelName(name)) == Some(name)
  {
    var m := ToModelName(name);
    assert m[..|m| - |ModelSuffix|] == name;
  }

  /** Distinct schemas never share a model class name. */
  lemma {:induction false} ToModelNameInjective(a: string, b: string)
    requires ToModelName(a) == ToModelName(b)
    ensures a == b
  {
    SchemaNameOfModelName(a);
    SchemaNameOfModelName(b);
  }

  /** The example after post-processing: the text "null" becomes no example at all. */
  function NormalizeExample(example: Option<string>): (r: Option<string>)
    ensures r != Some(NullExample)
    ensures r == example || r == None
    ensures r == None <==> example == None || example == Some(NullExample)
  {
    if example == Some(NullExample) then None else example
  }

  /** Post-processing an example twice changes nothing more. */
  lemma NormalizeExampleIdempotent(example: Option<string>)
    ensures NormalizeExample(NormalizeExample(example)) == NormalizeExample(example)
  {
  }

  /** The part of a generated property this generator touches. */
  class CodegenProperty {
    var example: Option<string>

    constructor (example: Option<string>)
      ensures this.example == example
    {
      this.example := example;
    }
  }

  /** The part of a generated model this generator touches. */
  class CodegenModel {
    var imports: set<string>

    constructor (imports: set<string>)
      ensures this.imports == imports
    {
      this.imports := imports;
    }
  }

  /**
   * Post-processes one property of `model`: drops an example spelled "null"
   * and records the `SerializedName` import on the model. The framework's own
   * post-processing, which runs first, is not part of this model.
   */
  method PostProcessModelProperty(model: CodegenModel, property: CodegenProperty)
    modifies model, property
    ensures property.example == NormalizeExample(old(property.example))
    ensures model.imports == old(model.imports) + {SerializedName}
  {
    if property.example == Some(NullExample) {
      property.example := None;
    }
    model.imports := model.imports + {SerializedName};
  }

  /** Post-processing a property twice leaves the same state as doing it once. */
  method PostProcessTwice(model: CodegenModel, property: CodegenProperty)
    modifies model, property
    ensures property.example == NormalizeExample(old(property.example))
    ensures model.imports == old(model.imports) + {SerializedName}
  {
    PostProcessModelProperty(model, property);
    PostProcessModelProperty(model, property);
    NormalizeExampleIdempotent(old(property.example));
  }
}
