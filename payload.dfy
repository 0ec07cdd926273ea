/**
  Where an instance comes from: an uploaded file, read as strict JSON when
  its name says so, otherwise as JSON when the text happens to be a JSON
  object and as DZN data failing that; or a stored instance, where a JSON
  file is preferred to a DZN one.

  JSON decoding is a parameter: a function from the text to the decoded
  value or the decoder's error message.
*/
module Payload {
  import opened Wrappers
  import opened Text
  import opened PyValues
  import opened Errors
  import opened Dzn

  /** What json.loads makes of a text. */
  datatype JsonParse = Parsed(value: Value) | SyntaxError(detail: string)

  predicate EndsWith(s: string, suffix: string) {
    |suffix| <= |s| && s[|s| - |suffix|..] == suffix
  }

  /** (filename or "").lower() */
  function LowerName(filename: Option<string>): string {
    match filename
    case None => ""
    case Some(n) => Lower(n)
  }

  /** What parse_instance_payload_from_multipart returns or raises for the
      decoded text of an upload. */
  function PayloadData(text: string, filename: Option<string>, jsonLoads: string -> JsonParse)
    : Result<map<string, Value>, Error>
  {
    if EndsWith(LowerName(filename), ".json") then
      match jsonLoads(text)
      case SyntaxError(detail) => Failure(InvalidJsonFile(detail))
      case Parsed(v) =>
        if v.VObject? then Success(v.fields) else Failure(InvalidJsonFile("JSON instance must be an object"))
    else
      match jsonLoads(text)
      case Parsed(VObject(fields)) => Success(fields)
      case _ => Success(DznData(text))
  }

  /** parse_instance_payload_from_multipart */
  method ParseInstancePayload(text: string, filename: Option<string>, jsonLoads: string -> JsonParse)
    returns (r: Result<map<string, Value>, Error>)
    ensures r == PayloadData(text, filename, jsonLoads)
  {
    var name := LowerName(filename);
    if EndsWith(name, ".json") {
      var obj := jsonLoads(text);
      if obj.SyntaxError? {
        return Failure(InvalidJsonFile(obj.detail));
      }
      if !obj.value.VObject? {
        return Failure(InvalidJsonFile("JSON instance must be an object"));
      }
      return Success(obj.value.fields);
    }
    var obj := jsonLoads(text);
    if obj.Parsed? && obj.value.VObject? {
      return Success(obj.value.fields);
    }
    var data := ParseDzn(text);
    return Success(data);
  }

  /** A text that decodes to a JSON object gives that object, whatever the
      file is called. */
  lemma JsonObjectAlwaysWins(text: string, filename: Option<string>, jsonLoads: string -> JsonParse)
    requires jsonLoads(text).Parsed? && jsonLoads(text).value.VObject?
    ensures PayloadData(text, filename, jsonLoads) == Success(jsonLoads(text).value.fields)
  {
  }

  /** A file named .json (in any letter case) is never read as DZN: a text
      that is not a JSON object is an error. */
  lemma JsonNameIsStrict(text: string, n: string, jsonLoads: string -> JsonParse)
    requires EndsWith(Lower(n), ".json")
    requires !(jsonLoads(text).Parsed? && jsonLoads(text).value.VObject?)
    ensures PayloadData(text, Some(n), jsonLoads).Failure?
    ensures PayloadData(text, Some(n), jsonLoads).error.InvalidJsonFile?
  {
  }

  /** Any other upload that is not a JSON object is read as DZN data; this
      never fails. */
  lemma OtherNamesFallBackToDzn(text: string, filename: Option<string>, jsonLoads: string -> JsonParse)
    requires !EndsWith(LowerName(filename), ".json")
    requires !(jsonLoads(text).Parsed? && jsonLoads(text).value.VObject?)
    ensures PayloadData(text, filename, jsonLoads) == Success(DznData(text))
  {
  }

  lemma LowerCharIdempotent(c: char)
    ensures LowerChar(LowerChar(c)) == LowerChar(c)
  {
  }

  /** The file name is compared in lower case, so renaming an upload to
      lower case changes nothing. */
  lemma NameCaseIgnored(text: string, n: string, jsonLoads: string -> JsonParse)
    ensures PayloadData(text, Some(Lower(n)), jsonLoads) == PayloadData(text, Some(n), jsonLoads)
  {
    forall k | 0 <= k < |n| ensures Lower(Lower(n))[k] == Lower(n)[k] {
      LowerCharIdempotent(n[k]);
    }
    assert Lower(Lower(n)) == Lower(n);
  }

  // ---------------------------------------------------------------------
  // Stored instances

  /** The stored files for one instance id: the JSON file as json.load reads
      it, and the text of the DZN file, each when it exists. */
  datatype StoredFiles = StoredFiles(json: Option<JsonParse>, dzn: Option<string>)

  /** What load_instance_by_id returns or raises. */
  function StoredData(id: string, files: StoredFiles): Result<map<string, Value>, Error> {
    match files.json
    case Some(SyntaxError(detail)) => Failure(JsonSyntax(detail))
    case Some(Parsed(v)) => if v.VObject? then Success(v.fields) else Failure(StoredJsonNotAnObject)
    case None =>
      match files.dzn
      case Some(text) => Success(DznData(text))
      case None => Failure(InstanceNotFound(id))
  }

  /** load_instance_by_id */
  method LoadInstanceById(id: string, files: StoredFiles) returns (r: Result<map<string, Value>, Error>)
    ensures r == StoredData(id, files)
  {
    if files.json.Some? {
      var obj := files.json.value;
      if obj.SyntaxError? {
        return Failure(JsonSyntax(obj.detail));
      }
      if !obj.value.VObject? {
        return Failure(StoredJsonNotAnObject);
      }
      return Success(obj.value.fields);
    }
    if files.dzn.Some? {
      var data := ParseDzn(files.dzn.value);
      return Success(data);
    }
    return Failure(InstanceNotFound(id));
  }

  /** The JSON file, when there is one, decides alone: the DZN file is not
      read even when the JSON file is unusable. */
  lemma StoredJsonPreferred(id: string, json: JsonParse, dzn: Option<string>, dzn': Option<string>)
    ensures StoredData(id, StoredFiles(Some(json), dzn)) == StoredData(id, StoredFiles(Some(json), dzn'))
    ensures StoredData(id, StoredFiles(Some(json), dzn)).Success? <==> json.Parsed? && json.value.VObject?
  {
  }

  /** Only an instance with neither file is reported missing. */
  lemma NotFoundIffNoFile(id: string, files: StoredFiles)
    ensures StoredData(id, files) == Failure(InstanceNotFound(id)) <==> files.json.None? && files.dzn.None?
  {
  }
}
