# Cosmos DB configuration source — Dafny model

This project models the two pieces of logic in a .NET configuration source
that exposes one JSON document, stored in Azure Cosmos DB, as a flat,
reloadable configuration map:

1. **The flattener** (`CosmosDbConfigurationValueParser`). It walks a JSON
   tree depth first and fills a case-insensitive dictionary from
   `:`-delimited keys to the text of every scalar. Empty objects and arrays
   below the root get their own key with value null. A scalar whose key is
   already present (ignoring case) raises a duplicate-key format error.
2. **The reload protocol** (`CosmosDbConfigurationProvider`). The provider
   holds the latest etag (initially empty) and the current map. `Reload`
   reads the document conditionally on the held etag. A non-success status
   returns false and changes nothing. Otherwise it parses the body, applies
   the sub-key picker, flattens, and only then replaces the map and the
   etag and returns true.

## Layout

- `wrappers.dfy` — `Option`, `Result`.
- `json.dfy` — the JSON value tree. A scalar carries the text the JSON
  library renders for it; that rendering is library-defined, so the model
  takes it as given.
- `configuration_data.dfy` — the case-insensitive dictionary: a map from
  folded key to an entry holding the key as first inserted and its value.
- `flattening.dfy` — the flattener's specification. `Writes` lists, in walk
  order, the dictionary writes the traversal performs: a checked `Put` per
  scalar, an unchecked `SetNull` per non-root empty container. `Apply`
  performs them and stops at the first duplicate. `Flatten` puts the two
  together for a root object. `IsLeafPath` describes independently which
  paths get a key, and `LeafValue` which value each such path holds.
- `flattening_properties.dfy` — what the specification guarantees: the
  key set, the value under each key, exactly when it fails, and soundness
  and completeness of the writes with respect to `LeafValue`.
- `flattening_examples.dfy` — worked inputs: a case collision, the two
  orders of a scalar and an empty container, array indexing, and a
  delimiter inside a member name.
- `value_parser.dfy` — the parser as the C# code writes it: a class with
  the dictionary and the key stack as fields, and visit methods with loops.
  Each method is proved to agree with the specification.
- `provider.dfy` — the provider as a class with `latestEtag` and `data`.
  `Reload` is proved against the pure `ReloadStep`, and `ReloadStep`'s
  contract states the protocol. A sub-key picker is a function that yields
  `None` where the C# delegate throws (for instance `GetProperty` on a
  missing property).

Where the code differs from what one might expect of the library, the model
follows the code:

- A JSON `null` is stored as whatever text the library renders for it. No
  null value is stored for it. Only empty containers store null.
- Duplicates are not always rejected. The null written for an empty
  container overwrites an existing entry without a check. So a scalar
  followed by an empty container under the same key (ignoring case)
  silently becomes null. The reverse order fails
  (`ScalarThenEmptyOverwrites`, `EmptyThenScalarFails`).
- Case-insensitive collisions are not the only source of duplicate keys.
  Two members with the same name collide. So does a member name containing
  `:` when it matches a nested path (`DelimiterInNameCollides`).
- A root that is not an object is not checked by the code itself. The
  object enumeration at the root throws. The model returns `NotAnObject`
  for it.

## Model

| member | source | states |
|---|---|---|
| `ConfigurationData.Set` | CosmosDbConfigurationValueParser.cs:7 | indexer assignment on the case-insensitive dictionary: the key set gains the folded key; the value is replaced; an existing entry keeps its first spelling; no other entry changes; the filing invariant is kept |
| `ConfigurationData.ContainsKey` | CosmosDbConfigurationValueParser.cs:74 | on a well-filed dictionary, true exactly when some stored key equals the given key ignoring case |
| `Flattening.Decimal` | CosmosDbConfigurationValueParser.cs:42 | an array index segment is never empty |
| `FlatteningProperties.DecimalDigits` | CosmosDbConfigurationValueParser.cs:42 | an array index segment is made only of decimal digits, so it never contains the `:` delimiter |
| `FlatteningProperties.DecimalRoundTrip` | CosmosDbConfigurationValueParser.cs:42 | the index segment reads back as the index, so distinct elements get distinct segments |
| `FlatteningProperties.DecimalNoLeadingZero` | CosmosDbConfigurationValueParser.cs:42 | an index segment starts with `0` exactly for index 0: invariant-culture integer text has no leading zeros |
| `FlatteningProperties.ExtendKeepsPrefix` | CosmosDbConfigurationValueParser.cs:83-84 | every key below a key K is K itself or starts with K followed by `:` |
| `Flattening.Step` | CosmosDbConfigurationValueParser.cs:51-76 | one write fails exactly when it is a scalar whose key is present ignoring case, and then names that key; a null write never fails; otherwise the dictionary is assigned the write's value under its key |
| `FlatteningProperties.ApplyKeys` | CosmosDbConfigurationValueParser.cs:51-76 | after successful writes, the key set is the old key set plus the folded key of every write |
| `FlatteningProperties.ApplyFrame` | CosmosDbConfigurationValueParser.cs:51-76 | a key no write touches keeps its entry |
| `FlatteningProperties.ApplyLastWriteWins` | CosmosDbConfigurationValueParser.cs:51-76 | after success, a key holds the value of the last write to it (scalar text, or null from an empty container) |
| `FlatteningProperties.ApplyValid` | CosmosDbConfigurationValueParser.cs:7 | successful writes keep every entry filed under the fold of the key it stores |
| `FlatteningProperties.ApplyFailsIffClash` | CosmosDbConfigurationValueParser.cs:73-74 | the writes fail exactly when some scalar write finds its key present already, or written earlier, ignoring case; null writes never fail |
| `FlatteningProperties.ApplyFailureNamesClash` | CosmosDbConfigurationValueParser.cs:74 | the duplicate-key error carries the key of a clashing scalar write |
| `FlatteningProperties.OnlyNullsFollow` | CosmosDbConfigurationValueParser.cs:51-76 | after success, a later write to a key already written, ignoring case, is always an empty container's null |
| `FlatteningProperties.WritesSound` | CosmosDbConfigurationValueParser.cs:56-81 | every write made while visiting a value is keyed by the full key of a path from it to a scalar or an empty container, and writes that leaf's value: the scalar's text, or null for the empty container |
| `FlatteningProperties.ObjectWritesSound` | CosmosDbConfigurationValueParser.cs:21-34 | the same for an object; at the root (empty stack) the path is never empty, so the root gets no key |
| `FlatteningProperties.MemberWritesSound` | CosmosDbConfigurationValueParser.cs:25-31 | writes of an object's members are keyed by non-empty paths starting with a member name |
| `FlatteningProperties.ArrayWritesSound` | CosmosDbConfigurationValueParser.cs:36-49 | the same as for objects, for arrays |
| `FlatteningProperties.ElementWritesSound` | CosmosDbConfigurationValueParser.cs:40-46 | writes of an array's elements are keyed by paths starting with an element's decimal index |
| `FlatteningProperties.WritesComplete` | CosmosDbConfigurationValueParser.cs:56-81 | every path from a value to a scalar or an empty container is written under its full key with that leaf's value (text, or null) |
| `FlatteningProperties.ObjectWritesComplete` | CosmosDbConfigurationValueParser.cs:21-34 | the same for an object; an empty non-root object writes its own key |
| `FlatteningProperties.MemberWritesComplete` | CosmosDbConfigurationValueParser.cs:25-31 | a leaf path inside member i is written under member i's key |
| `FlatteningProperties.ArrayWritesComplete` | CosmosDbConfigurationValueParser.cs:36-49 | the same for an array; an empty non-root array writes its own key |
| `FlatteningProperties.ElementWritesComplete` | CosmosDbConfigurationValueParser.cs:40-46 | a leaf path inside element i is written under the parent key, `:`, and the decimal text of i |
| `FlatteningProperties.FlattenEmptyRoot` | CosmosDbConfigurationValueParser.cs:14-19 | a root object with no members flattens to the empty map |
| `FlatteningProperties.FlattenKeysSound` | CosmosDbConfigurationValueParser.cs:21-81 | on success, every key of the map is the folded key of a non-root path ending at a scalar or an empty container |
| `FlatteningProperties.FlattenKeysComplete` | CosmosDbConfigurationValueParser.cs:21-81 | on success, every such path has its folded key in the map |
| `FlatteningProperties.FlattenKeys` | CosmosDbConfigurationValueParser.cs:21-81 | on success, the key set is exactly the set of those paths' keys, up to case folding |
| `FlatteningProperties.FlattenValid` | CosmosDbConfigurationValueParser.cs:7 | on success, each entry stores a key that folds to the key it is filed under |
| `FlatteningProperties.FlattenFailsIffDuplicate` | CosmosDbConfigurationValueParser.cs:14-81 | flattening fails exactly when the root is not an object, or a scalar meets a key written earlier in the walk, ignoring case |
| `FlatteningProperties.FlattenValuesSound` | CosmosDbConfigurationValueParser.cs:21-81 | on success, every entry's value is the value of some non-root leaf whose full key folds to the entry's key: a scalar's text or an empty container's null |
| `FlatteningProperties.FlattenEmptyContainerIsNull` | CosmosDbConfigurationValueParser.cs:48-54 | on success, the key of every non-root empty object or array holds null |
| `FlatteningProperties.FlattenScalarIsText` | CosmosDbConfigurationValueParser.cs:68-75 | on success, the key of every non-root scalar is present and holds its text, unless a non-root empty container's key equals it ignoring case |
| `FlatteningExamples.SiblingCaseCollision` | CosmosDbConfigurationValueParser.cs:73-74 | sibling scalars `A` and `a` fail with a duplicate key `a` |
| `FlatteningExamples.ScalarThenEmptyOverwrites` | CosmosDbConfigurationValueParser.cs:53 | scalar `A` then empty object `a` gives `A` mapped to null, with no error |
| `FlatteningExamples.EmptyThenScalarFails` | CosmosDbConfigurationValueParser.cs:74 | empty object `a` then scalar `A` fails with a duplicate key `A` |
| `FlatteningExamples.ArrayIndexing` | CosmosDbConfigurationValueParser.cs:38-45 | `{"a": [10, 20]}` gives `a:0` to 10 and `a:1` to 20 |
| `FlatteningExamples.EmptyContainersAreNull` | CosmosDbConfigurationValueParser.cs:48-54 | `{"a": {}, "b": []}` gives `a` and `b` mapped to null |
| `FlatteningExamples.DelimiterInNameCollides` | CosmosDbConfigurationValueParser.cs:83-84 | a member named `a:b` collides with member `b` of member `a` |
| `ConfigurationValueParser.ValueParser.constructor` | CosmosDbConfigurationValueParser.cs:7-12 | a new parser has an empty dictionary and an empty key stack |
| `ConfigurationValueParser.ValueParser.Parse` | CosmosDbConfigurationValueParser.cs:14-19 | parsing returns exactly `Flatten` of the element: the dictionary, or the error raised |
| `ConfigurationValueParser.ValueParser.VisitObjectElement` | CosmosDbConfigurationValueParser.cs:21-34 | visiting an object performs exactly its specified writes on the dictionary, or raises their error; the stack is restored; a non-object fails |
| `ConfigurationValueParser.ValueParser.VisitArrayElement` | CosmosDbConfigurationValueParser.cs:36-49 | visiting an array performs exactly its specified writes, elements keyed by index in order; the stack is restored |
| `ConfigurationValueParser.ValueParser.SetNullIfElementIsEmpty` | CosmosDbConfigurationValueParser.cs:51-54 | null is written under the top key only for an empty container and a non-empty stack; the stack is unchanged |
| `ConfigurationValueParser.ValueParser.VisitValue` | CosmosDbConfigurationValueParser.cs:56-81 | visiting a value under the top key performs exactly its specified writes or fails with the duplicate key; the stack depth is unchanged afterwards |
| `ConfigurationValueParser.ValueParser.EnterContext` | CosmosDbConfigurationValueParser.cs:83-84 | pushes the bare segment on an empty stack, else the top key, `:`, and the segment |
| `ConfigurationValueParser.ValueParser.ExitContext` | CosmosDbConfigurationValueParser.cs:86 | pops the top key and leaves the dictionary alone |
| `CosmosDbConfiguration.ReloadStep` | CosmosDbConfigurationProvider.cs:25-39 | non-success returns false with state unchanged; malformed JSON, a throwing picker or a flattening error fail with state unchanged; otherwise returns true with the map equal to the flattened picked document and the etag equal to the response's |
| `CosmosDbConfiguration.DefaultPicker` | CosmosDbConfigurationProvider.cs:41-44 | the default picker never throws and picks the whole document unchanged |
| `CosmosDbConfiguration.ConfigurationProvider.constructor` | CosmosDbConfigurationProvider.cs:10-18 | the held etag starts empty and the map empty; without a configured picker the picker is the identity |
| `CosmosDbConfiguration.ConfigurationProvider.Build` | CosmosDbConfigurationProvider.cs:20-23 | the provider is its own configuration source |
| `CosmosDbConfiguration.ConfigurationProvider.Reload` | CosmosDbConfigurationProvider.cs:25-39 | the read presents the held etag as If-None-Match; the result, new map and new etag are exactly `ReloadStep` of the old state and the store's response |
| `CosmosDbConfiguration.ConfigurationProvider.Load` | CosmosDbConfigurationProvider.cs:46-49 | one reload, its boolean dropped, its failure propagated, its state change kept |
| `CosmosDbConfiguration.DefaultPickerFlattensWholeDocument` | CosmosDbConfigurationProvider.cs:41-44 | with the default picker a successful reload stores the flattened whole document |
| `CosmosDbConfiguration.FirstReloadFetches` | CosmosDbConfigurationProvider.cs:10 | from the initial empty etag, a store holding a revision with a non-empty etag returns it, and the reload succeeds when it flattens |
| `CosmosDbConfiguration.ReloadSettles` | CosmosDbConfigurationProvider.cs:25-32 | after a successful reload against a revision, reloading against the same revision returns false and changes nothing |

## Left out

- The Cosmos DB point read (`ReadItemStreamAsync`) is a function parameter from read request to response. Its status codes are reduced to non-success or fetched. A transport exception it throws is not modelled; it would propagate before any state changes.
- A sub-key picker that throws is modelled as one returning `None`; the exception's type and message are reduced to `PickerFailed`, which, like every reload error, leaves the state unchanged.
- JSON parsing of the response body is a library call. The response carries the parsed tree, or `None` for malformed JSON.
- Scalar rendering (`JsonElement.ToString()`) is library-defined. Each scalar carries its rendered text.
- `Fold`: `StringComparer.OrdinalIgnoreCase` is modelled by upper-casing ASCII letters only. Case mapping outside ASCII is not modelled.
- The `default` branch for an unsupported value kind is unreachable with the closed `Value` type.
- `ConfigurationValueParser.ValueParser.VisitObjectElement`, `VisitArrayElement`, `VisitValue`: after a failure, only the error is specified. The stack is not restored in that case, and the partly filled dictionary is discarded by `Parse`.
- `ConfigurationValueParser.ValueParser.ExitContext` and `VisitValue` require a non-empty stack. Every caller pushes first; popping or peeking an empty stack would throw.
- The `OnReload()` change notification and the `ConfigurationProvider` base class are left out.
- Async execution, cancellation, blocking on the task in `Load`, and overlapping `Reload` calls are left out.
- The option builders (`CosmosDbConfigurationOptions.cs`), the builder and service registration (`CosmosDbConfigurationExtensions.cs`) and the refresher interface (`ICosmosConfigurationSourceRefresher.cs`) are glue; they are not part of this model.
- `RevisionStore` describes an idealised store that honours If-None-Match for one revision. It is used only to state `FirstReloadFetches` and `ReloadSettles`.
