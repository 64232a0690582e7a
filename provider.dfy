/**
 * The configuration provider: it holds the latest etag and the current
 * flat map, and reloads the document with a conditional read.
 */
module CosmosDbConfiguration {
  import opened Wrappers
  import opened Json
  import opened ConfigurationData
  import opened Flattening
  import ConfigurationValueParser

  /** The partition key of the document; `NullPartition` when none is configured. */
  datatype PartitionKey = NullPartition | PartitionValue(value: string)

  /**
   * A sub-key picker: it selects the element to flatten from the whole
   * document, and yields `None` where it throws (a picker such as
   * `e.GetProperty("here")` throws when the property is missing).
   */
  type Picker = Value -> Option<Value>

  /** What the provider is constructed from. */
  datatype Options = Options(documentId: string, partitionKey: PartitionKey, subKeyPicker: Option<Picker>)

  /** A conditional point read: return the document unless its etag matches `ifNoneMatchEtag`. */
  datatype ReadRequest = ReadRequest(documentId: string, partitionKey: PartitionKey, ifNoneMatchEtag: string)

  /**
   * The store's answer: a non-success status (not modified, not found), or
   * the document with its etag; `None` stands for a body that is not JSON.
   */
  datatype Response = NotSuccess | Fetched(body: Option<Value>, etag: string)

  /** Why a reload fails. */
  datatype ReloadError =
    | MalformedJson            // the body does not deserialize as JSON
    | PickerFailed             // the sub-key picker throws
    | BadFormat(cause: ParseError)  // the picked element does not flatten

  /** The state a reload may replace. */
  datatype Snapshot = Snapshot(etag: string, data: Dict)

  /** The picker used when none is configured: it never throws and picks the whole document. */
  function DefaultPicker(e: Value): (r: Option<Value>)
    ensures r.Some? && r.value == e
  {
    Some(e)
  }

  /**
   * One reload from a response, as a function of the state before: what it
   * returns and the state after.
   */
  function ReloadStep(s: Snapshot, picker: Picker, response: Response): (r: (Result<bool, ReloadError>, Snapshot))
    ensures response.NotSuccess? ==> r == (Success(false), s)
    ensures r.0.Failure? ==> r.1 == s
    ensures r.0 == Success(true) <==>
      response.Fetched? && response.body.Some? && picker(response.body.value).Some?
      && Flatten(picker(response.body.value).value).Success?
    ensures r.0 == Success(true) ==>
      r.1 == Snapshot(response.etag, Flatten(picker(response.body.value).value).value)
    ensures response.Fetched? && response.body.None? ==> r.0 == Failure(MalformedJson)
    ensures response.Fetched? && response.body.Some? && picker(response.body.value).None? ==>
      r.0 == Failure(PickerFailed)
    ensures (response.Fetched? && response.body.Some? && picker(response.body.value).Some?
             && Flatten(picker(response.body.value).value).Failure?) ==>
      r.0 == Failure(BadFormat(Flatten(picker(response.body.value).value).error))
  {
    match response
    case NotSuccess => (Success(false), s)
    case Fetched(body, etag) =>
      match body
      case None => (Failure(MalformedJson), s)
      case Some(json) =>
        match picker(json)
        case None => (Failure(PickerFailed), s)
        case Some(root) =>
          match Flatten(root)
          case Failure(e) => (Failure(BadFormat(e)), s)
          case Success(d) => (Success(true), Snapshot(etag, d))
  }

  class ConfigurationProvider {
    const documentId: string
    const partitionKey: PartitionKey
    const picker: Picker
    /** The etag of the document the map was built from; empty until the first successful reload. */
    var latestEtag: string
    /** The flat configuration map exposed to the application. */
    var data: Dict

    constructor (options: Options)
      ensures documentId == options.documentId && partitionKey == options.partitionKey
      ensures options.subKeyPicker.Some? ==> picker == options.subKeyPicker.value
      ensures options.subKeyPicker.None? ==> forall e :: picker(e) == Some(e)
      ensures latestEtag == "" && data == map[]
    {
      documentId := options.documentId;
      partitionKey := options.partitionKey;
      if options.subKeyPicker.Some? {
        picker := options.subKeyPicker.value;
      } else {
        picker := DefaultPicker;
      }
      latestEtag := "";
      data := map[];
    }

    /** The provider is its own configuration source. */
    method Build() returns (p: ConfigurationProvider)
      ensures p == this
    {
      p := this;
    }

    /**
     * Read the document conditionally on the held etag; on a non-success
     * status change nothing and return false; otherwise parse, pick, flatten
     * and only then replace the map and the etag, and return true; a failure
     * at any of these steps changes nothing. `store` gives the document
     * store's answer to a read.
     */
    method Reload(store: ReadRequest -> Response) returns (r: Result<bool, ReloadError>)
      modifies this
      ensures (r, Snapshot(latestEtag, data)) ==
        ReloadStep(Snapshot(old(latestEtag), old(data)), picker,
                   store(ReadRequest(documentId, partitionKey, old(latestEtag))))
    {
      var response := store(ReadRequest(documentId, partitionKey, latestEtag));
      if response.NotSuccess? {
        return Success(false);
      }
      if response.body.None? {
        return Failure(MalformedJson);
      }
      var picked := picker(response.body.value);
      if picked.None? {
        return Failure(PickerFailed);
      }
      var rootElement := picked.value;
      var parsed := ConfigurationValueParser.ValueParser.Parse(rootElement);
      if parsed.Failure? {
        return Failure(BadFormat(parsed.error));
      }
      data := parsed.value;
      latestEtag := response.etag;
      return Success(true);
    }

    /** Initial load: one reload whose boolean result is dropped; a failure still propagates. */
    method Load(store: ReadRequest -> Response) returns (failure: Option<ReloadError>)
      modifies this
      ensures var step := ReloadStep(Snapshot(old(latestEtag), old(data)), picker,
                                     store(ReadRequest(documentId, partitionKey, old(latestEtag))));
        Snapshot(latestEtag, data) == step.1 &&
        failure == if step.0.Failure? then Some(step.0.error) else None
    {
      var r := Reload(store);
      failure := if r.Failure? then Some(r.error) else None;
    }
  }

  /**
   * A store holding one revision of the document: a read of that document
   * returns it unless the presented etag is the revision's, and a read of
   * any other document finds nothing.
   */
  function RevisionStore(documentId: string, partitionKey: PartitionKey, body: Option<Value>, etag: string): ReadRequest -> Response
  {
    (q: ReadRequest) =>
      if q.documentId == documentId && q.partitionKey == partitionKey && q.ifNoneMatchEtag != etag
      then Fetched(body, etag)
      else NotSuccess
  }

  /**
   * With no picker the whole document is flattened: a successful reload
   * leaves exactly the flattened document as the map.
   */
  lemma DefaultPickerFlattensWholeDocument(s: Snapshot, doc: Value, etag: string)
    ensures var (r, s') := ReloadStep(s, DefaultPicker, Fetched(Some(doc), etag));
      (r == Success(true) <==> Flatten(doc).Success?) &&
      (r == Success(true) ==> s'.data == Flatten(doc).value)
  {
  }

  /**
   * The held etag starts empty, so the first reload from a store holding a
   * revision with a non-empty etag fetches and flattens it.
   */
  lemma FirstReloadFetches(picker: Picker, id: string, pk: PartitionKey, doc: Value, etag: string)
    requires etag != ""
    ensures var store := RevisionStore(id, pk, Some(doc), etag);
      var (r, s') := ReloadStep(Snapshot("", map[]), picker, store(ReadRequest(id, pk, "")));
      picker(doc).Some? && Flatten(picker(doc).value).Success? ==> r == Success(true) && s'.etag == etag
  {
  }

  /**
   * Once a reload has succeeded against a revision, reloading again against
   * the same revision presents its etag, returns false and changes nothing.
   */
  lemma ReloadSettles(s: Snapshot, picker: Picker, id: string, pk: PartitionKey, body: Option<Value>, etag: string)
    ensures var store := RevisionStore(id, pk, body, etag);
      var (r, s') := ReloadStep(s, picker, store(ReadRequest(id, pk, s.etag)));
      r == Success(true) ==>
        ReloadStep(s', picker, store(ReadRequest(id, pk, s'.etag))) == (Success(false), s')
  {
  }
}
