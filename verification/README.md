# CryptedJSONdb: nested-path addressing

CryptedJSONdb is an embedded JSON document store: one object per database holds
the document in `this.data`, mirrors it to a file (optionally AES-encrypted) and
addresses it by variadic key paths. This project models the addressing core of
`index.js`:

- `setValue(value, ...keys)` walks the intermediate keys, replaces every missing
  or falsy intermediate slot by a fresh `{}`, compares the existing leaf with
  `value` by `!==`, and either returns `false` without saving or writes the leaf,
  calls `save()` and returns `true`;
- `getValue(...keys)` walks all keys and yields `undefined` at the first missing
  or falsy slot; `getPath` forwards to it.

Layout:

- `json.dfy` (module `Json`): the `Value` tree, JavaScript truthiness
  (`Truthy`) and the `===` the store applies (`StrictEq`).
- `path_resolver.dfy` (module `PathResolver`): the raw slot at a path (`At`),
  the read walk (`Get`), the write walk's failure point (`Blocker`), the tree
  after a write (`SetIn`), and lemmas about them.
- `document_store.dfy` (module `DocumentStore`): the class `CryptedJsonDb` with
  the mutable field `data`, a ghost log `saved` of the snapshots `save()` would
  serialise, and the methods `SetValue`, `GetValue`, `GetPath` with their loops.

Modelling choices:

- `undefined` is `None` of `Option<Value>`.
- With no keys at all, the source's `keys[keys.length - 1]` is `keys[-1]`, i.e.
  `undefined`, so `setValue(v)` writes the property `"undefined"` of the root;
  the model does the same (`LeafKey`, `Target`) instead of forbidding the call.
- A truthy primitive met as an intermediate (for instance `5` at `a` in
  `setValue(v, "a", "b")`) makes the next property assignment throw a TypeError,
  since class bodies run in strict mode. The model returns `TypeError`. No
  mutation can precede it: once one intermediate is replaced, every later
  container is a fresh `{}`.
- The source mutates nested objects in place through the cursor `obj`. The
  model keeps `data` as a value: the walk loop records the containers it passes,
  and a second loop writes the updated container back into each of them.

## Model

| member | source | states |
|---|---|---|
| `DocumentStore.CryptedJsonDb.constructor` | index.js:18-25 | the database starts with the document that loading produced and nothing saved yet |
| `DocumentStore.CryptedJsonDb.Save` | index.js:56-66 | `save()` persists a snapshot of exactly the current document |
| `DocumentStore.CryptedJsonDb.SetValue` | index.js:73-86 | throws (data unchanged, no save) exactly when the walk meets a truthy primitive; returns `false` exactly when the compared leaf is strictly equal to the value, then data unchanged and no save; otherwise returns `true`, the document becomes the written tree and `save()` runs once, after the update, on the new document |
| `DocumentStore.CryptedJsonDb.GetValue` | index.js:92-101 | returns the read walk's answer without changing anything; with no keys it returns the whole root |
| `DocumentStore.CryptedJsonDb.GetPath` | index.js:107-110 | returns exactly what `getValue` returns for the same path |
| `DocumentStore.Target` | index.js:75-82 | `setValue` writes at its keys; with no keys, at the root property `"undefined"` |
| `DocumentStore.SetValueThenGetValue` | index.js:73-101 | after a `setValue` that does not throw, the target slot holds the value; `getValue` returns it when truthy and `undefined` when falsy |
| `DocumentStore.SetValueFrame` | index.js:74-82 | every path that neither leads to the target leaf nor lies below it reads the same slot before and after `setValue` (siblings at every level are kept) |
| `DocumentStore.SecondSetValue` | index.js:81-83 | repeating `setValue` with the same value is a no-op exactly when the value is a primitive; the walk still throws nothing |
| `PathResolver.GetCharacterised` | index.js:92-101 | the read walk answers iff every slot on the path (the last included) is present and truthy, and then answers the raw slot at the path |
| `PathResolver.FalsyReadsUndefined` | index.js:94-97 | a missing or falsy slot anywhere on the path, such as a stored `0`, `""`, `false` or `null`, makes `getValue` return `undefined` |
| `PathResolver.SetReachesLeaf` | index.js:74-82 | after a write, the leaf holds the value, the read walk reaches it through objects only, and a later write walk meets no blocker |
| `PathResolver.SetThenGet` | index.js:73-101 | reading the written path returns the value when truthy, `undefined` when falsy |
| `PathResolver.SetContainers` | index.js:75-80 | at every depth the container after a write is an object; a truthy old container keeps its keys and gains only the next key; a missing or falsy one is replaced by fresh objects holding only the rest of the path |
| `PathResolver.SetInEmpty` | index.js:76-78 | writing below a fresh `{}` builds exactly a chain of fresh single-key objects |
| `PathResolver.SetFrame` | index.js:74-82 | the write changes no raw slot off the written path or below the leaf |

## Left out

- Loading and saving to disk (`fs.existsSync`, `readFileSync`, `writeFileSync`), AES encryption and decryption, and `JSON.parse` / `JSON.stringify` with their indentation: file I/O and foreign libraries. `load()` is represented only by the document the constructor receives; `save()` only by the ghost snapshot log `saved`. The load path's quirk of writing an encrypted `"{}"` even when encryption is off is not modelled either.
- The `console.log` calls that swallow load and save errors: logging only; a failing save is not modelled.
- Delete, array append and index lookup: `index.js` has no such operations.
- `StrictEq`: for arrays and objects the source's `!==` compares references. The model treats the caller's array or object as a fresh reference, never the stored one, so passing back the very object read from the store (which the source reports as unchanged) is not modelled.
- `Prop`: reads of properties of primitives, of arrays (`"0"`, `"length"`) and of `Object.prototype` members (`"toString"`, `"__proto__"`) give `undefined` in the model, whereas JavaScript yields the character, element, length or inherited member. Writing such keys (for example `"__proto__"`) is not modelled either.
- `SetValue`: paths through arrays are not modelled at all, matching `Prop`; calls whose write walk meets a truthy array as an intermediate are excluded by its precondition. With an index key JavaScript would replace an element (`setValue(v, "list", "0")`) or write into an element object (`setValue(v, "list", "0", "x")`), which an `Arr` could hold but the model does not follow; with a non-index key it would add a stray property to the array, which a JSON `Value` cannot hold.
- Sharing and aliasing: the document is a tree of values, and no object is reachable by two paths. In the source `getValue` returns a live reference into `data` and `setValue` stores the caller's object by reference, so after `x = getValue("a"); setValue(x, "b")` a later write under `a` is also seen under `b`, and a caller mutating a returned or stored object changes `data` without `save()`. The model captures none of this; `SetValueFrame` and `SetFrame` hold only for documents in which no object is reachable by two paths.
- The root of the document is always an object in the model. `load()` keeps whatever `JSON.parse` returns, for example `null` or `[]`; with a `null` root `getValue("k")` and `setValue(v, "k")` throw in the source, and an array root is not modelled.
- Numbers are integers: no floating point, `NaN` or `-0`. A `value` of `undefined` or a function is not a JSON value and is not modelled.
- Concurrency and multiple processes sharing the file: the source is single-threaded and offers no protection.
