# Contact directory core: validator and cached CRUD controller

A Dafny model of the core of a small ASP.NET contact directory ("Contatos"):

- `ContatoModel` — the `Contato` record: `Id` plus the strings `Nome`, `Email`,
  `Telefone`, `DDD` (area code), with the defaults of a freshly built object.
- `ContatoValidator` — `Validate`, which checks the four text fields and
  returns at most one message per field, in the order Nome, Email, DDD,
  Telefone. The method grows its list block by block, as the C# does. It is
  proved equal to `Violations`, the template messages whose failure condition
  holds, kept in template order.
- `Controllers` — `ContatosController`, a class with four fields:
  - the store (`map<int, Contato>`);
  - the next identity value;
  - the in-memory cache (`map<string, Entry>`, each entry a value and an absolute expiry);
  - the cache clock `now`.

  Its methods are the five actions `Create`, `GetAll`, `GetById`, `Update`
  and `Delete`. Each returns an `Outcome` (`Created`, `OkList`, `OkItem`,
  `Updated`, `Deleted`, `BadRequest(reason)`, `NotFound`, `StoreFailure(fault)`).
  Each method's postcondition gives the outcome and the new state for every
  branch, in the order the action checks them.
- `NetText` — the .NET library behaviour the core depends on, written out:
  - `char.IsWhiteSpace` and `string.IsNullOrWhiteSpace` / `IsNullOrEmpty`;
  - `int.TryParse` under the default integer style: optional parse
    whitespace, an optional `+`/`-`, ASCII digits, optional parse whitespace,
    trailing NULs, and the Int32 range;
  - `int.ToString`, with the round trip back through `int.TryParse`.
- `ControllerScenarios` — short sequences of actions that show the caching
  policy. On a live entry, a read after a write returns the value cached
  before the write. A read after the entry's lifetime comes from the store.
  Ids are never reused.

The cache policy as the code has it:
- List keys are `all_contatos` (no filter) or `contatos_ddd_<ddd>`.
- Item keys are `contato_<id>`, with the id spelled from the parsed number.
- Lists live 10 minutes and items 5 minutes, both counted from the moment the entry is set.
- An entry is served while `now < expiry`.
- An empty list result is answered with `NotFound` and is not cached.
- **No write invalidates anything.** `Create`, `Update` and `Delete` leave the
  cache exactly as it was. Every write's postcondition says `cache == old(cache)`.

Nothing in `Create`, `Update` or `Delete` removes a cache entry: a cached
list or contact is served until it expires.

The single `ContatosController` object stands for the whole process. ASP.NET
builds a new controller for every request, but every instance shares the one
`IMemoryCache` singleton registered at start-up and the one table. The Dafny
object's `store`, `nextId`, `cache` and `now` are that shared state. Its
constructor is process start: an empty cache over an existing table. Every
action and scenario is proved from any state satisfying `Valid()`, so it
covers every request, not only the first.

The clock, the store contents and the id of a request are parameters or state
of the model. Nothing is read from a real database, clock or network.

## Model

| member | source | states |
|---|---|---|
| `ContatoModel.DefaultContato` | Crud_FIAP_Debora_Krikowski/Models/contato.cs:8-12 | a new Contato has Id 0 and Nome, Email, Telefone, DDD all empty |
| `ContatoValidator.Validate` | Crud_FIAP_Debora_Krikowski/Validators/ContatoValidator.cs:9-55 | the list built by the four if / else-if blocks is exactly `Violations(c)`, the template messages whose condition holds, in template order; the argument is a value and is not changed |
| `ContatoValidator.Violations` | Crud_FIAP_Debora_Krikowski/Validators/ContatoValidator.cs:9-55 | the specification of the result: at most the eight template messages, and empty for a contact that satisfies all four field rules |
| `ContatoValidator.FailsBreaksRule` | Crud_FIAP_Debora_Krikowski/Validators/ContatoValidator.cs:14-51 | `Fails`, the failure condition of each message, holds only when the rule of that message's field is broken |
| `ContatoValidator.ViolationsByField` | Crud_FIAP_Debora_Krikowski/Validators/ContatoValidator.cs:11-54 | the result is the Nome part, then the Email part, then the DDD part, then the Telefone part |
| `ContatoValidator.ViolationsClosedForm` | Crud_FIAP_Debora_Krikowski/Validators/ContatoValidator.cs:14-51 | the template filter equals the four if / else-if chains, one after another: at most the first failing check of each field, in field order |
| `ContatoValidator.ViolationsMembership` | Crud_FIAP_Debora_Krikowski/Validators/ContatoValidator.cs:14-51 | a message is in the result exactly when its field's earlier checks passed and its own check failed |
| `ContatoValidator.ViolationsOrdered` | Crud_FIAP_Debora_Krikowski/Validators/ContatoValidator.cs:11-54 | at most 4 messages; field order strictly increases (so at most one message per field, in the order Nome, Email, DDD, Telefone), and template positions strictly increase (so the result is a subsequence of the template) |
| `ContatoValidator.ValidIffNoViolations` | Crud_FIAP_Debora_Krikowski/Validators/ContatoValidator.cs:9-55 | the result is empty iff all four field rules hold; the rules are stated separately, without the messages, in both directions |
| `ContatoValidator.NomeRules` | Crud_FIAP_Debora_Krikowski/Validators/ContatoValidator.cs:14-21 | an empty or all-white name gives "required"; otherwise a name over 100 chars gives "too long"; a non-blank name of exactly 100 chars gives no name message |
| `ContatoValidator.EmailRules` | Crud_FIAP_Debora_Krikowski/Validators/ContatoValidator.cs:24-35 | "required" iff blank; "invalid" iff non-blank without '@'; "too long" iff non-blank, has '@' and is over 255 chars; a 300-char non-blank email without '@' gives only "invalid" |
| `ContatoValidator.DddRules` | Crud_FIAP_Debora_Krikowski/Validators/ContatoValidator.cs:38-45 | the size message iff blank or length ≠ 2; the numeric message iff the DDD passes the size check and `int.TryParse` fails; on two chars, the numeric message appears iff the DDD is not one of: two digits, a sign or parse-white then a digit, or a digit then a parse-white or NUL |
| `ContatoValidator.DddExamples` | Crud_FIAP_Debora_Krikowski/Validators/ContatoValidator.cs:38-45 | "11", "-1", "+1" and " 1" give no DDD message; "1" and "111" give the size message; "1a" gives the numeric message and not the size message |
| `ContatoValidator.TelefoneRules` | Crud_FIAP_Debora_Krikowski/Validators/ContatoValidator.cs:48-51 | the phone message iff the phone is blank or its length is outside 10..11; the digits are not checked |
| `ContatoValidator.DefaultContatoViolations` | Crud_FIAP_Debora_Krikowski/Models/contato.cs:9-12 | a default Contato fails with exactly four messages, one per field: name required, email required, DDD size, phone length |
| `NetText.IsWhiteSpace` | Crud_FIAP_Debora_Krikowski/Validators/ContatoValidator.cs:14-51 | every character the number parser skips is white space too; digits, `@`, `+`, `-` and NUL are not white space |
| `NetText.IsNullOrWhiteSpace` | Crud_FIAP_Debora_Krikowski/Validators/ContatoValidator.cs:14-51 | the empty string is blank; a string containing a digit or an `@` is never blank |
| `NetText.ParseInt32` | Crud_FIAP_Debora_Krikowski/Validators/ContatoValidator.cs:42 | when `int.TryParse` returns true, its value is in the Int32 range |
| `NetText.ParseInt32OfDigits` | Crud_FIAP_Debora_Krikowski/Validators/ContatoValidator.cs:42 | a plain run of digits parses to its value when that is at most 2147483647; a larger value overflows and the parse fails |
| `NetText.ParseInt32OfNegativeDigits` | Crud_FIAP_Debora_Krikowski/Validators/ContatoValidator.cs:42 | `-` then digits parses to the negated value when that is at least -2147483648; a lower value overflows and the parse fails |
| `NetText.ParseInt32OfLengthTwo` | Crud_FIAP_Debora_Krikowski/Validators/ContatoValidator.cs:42 | on a two-char string, the exact set of strings `int.TryParse` accepts, in both directions |
| `NetText.Int32ToString` | Crud_FIAP_Debora_Krikowski/Controllers/ContatosController.cs:92 | a leading `-` iff the value is negative, then at least one digit and nothing else; no leading zero except for 0 itself |
| `NetText.ParseInt32OfAnyToString` | Crud_FIAP_Debora_Krikowski/Controllers/ContatosController.cs:87-92 | the decimal spelling of any integer parses back to that integer exactly when it is in the Int32 range; one past either end fails |
| `NetText.Int32ToStringInjective` | Crud_FIAP_Debora_Krikowski/Controllers/ContatosController.cs:92 | different ids have different decimal spellings |
| `Controllers.ListKey` | Crud_FIAP_Debora_Krikowski/Controllers/ContatosController.cs:56 | a null or empty `ddd` gives `all_contatos`; otherwise the key is `contatos_ddd_` followed by exactly the given `ddd` |
| `Controllers.ItemKey` | Crud_FIAP_Debora_Krikowski/Controllers/ContatosController.cs:92 | the key is `contato_` followed by a suffix that parses back to the id |
| `Controllers.ListLookupAfterSet` | Crud_FIAP_Debora_Krikowski/Controllers/ContatosController.cs:58-77 | after a list is set under a key at `now` for `ttl`, the typed list lookup under that key returns exactly that list at every time before `now + ttl` and misses from then on; a single contact set under the key makes the list lookup miss; the list lookup at every other key is unchanged |
| `Controllers.ItemLookupAfterSet` | Crud_FIAP_Debora_Krikowski/Controllers/ContatosController.cs:95-107 | after a contact is set under a key at `now` for `ttl`, the typed contact lookup under that key returns exactly that contact at every time before `now + ttl` and misses from then on; a list set under the key makes the contact lookup miss; the contact lookup at every other key is unchanged |
| `Controllers.SetEntry` | Crud_FIAP_Debora_Krikowski/Controllers/ContatosController.cs:77 | after the set, the key holds the new value with expiry `now + ttl`; no other key is added, dropped or changed |
| `Controllers.Query` | Crud_FIAP_Debora_Krikowski/Controllers/ContatosController.cs:63-70 | the list query returns at most `bound - 1` contacts, each a stored contact that matches the filter |
| `Controllers.ListKeyInjective` | Crud_FIAP_Debora_Krikowski/Controllers/ContatosController.cs:56 | two list queries share a key iff they have the same filter; a null and an empty `ddd` both mean no filter and share `all_contatos` |
| `Controllers.ListKeyIsListKey` | Crud_FIAP_Debora_Krikowski/Controllers/ContatosController.cs:56 | every list key is `all_contatos` or starts with `contatos_ddd_` |
| `Controllers.ItemKeyInjective` | Crud_FIAP_Debora_Krikowski/Controllers/ContatosController.cs:92 | two ids share an item key `contato_<id>` iff they are equal |
| `Controllers.KeyFamiliesDisjoint` | Crud_FIAP_Debora_Krikowski/Controllers/ContatosController.cs:92 | no item key (line 92) is ever a list key (line 56) |
| `Controllers.SetEntryLifetime` | Crud_FIAP_Debora_Krikowski/Controllers/ContatosController.cs:77 | an entry set at `now` with lifetime `ttl` is live at time `t` iff `t < now + ttl`; it holds the value set; every other key is unchanged |
| `Controllers.QuerySound` | Crud_FIAP_Debora_Krikowski/Controllers/ContatosController.cs:63-70 | every contact the list query returns is stored under its own id and has the requested DDD (any DDD when there is no filter) |
| `Controllers.QueryComplete` | Crud_FIAP_Debora_Krikowski/Controllers/ContatosController.cs:63-70 | every stored contact with the requested DDD is returned |
| `Controllers.QuerySorted` | Crud_FIAP_Debora_Krikowski/Controllers/ContatosController.cs:70 | ids in the result strictly ascend, so no contact appears twice |
| `Controllers.QueryAll` | Crud_FIAP_Debora_Krikowski/Controllers/ContatosController.cs:63-70 | with no filter the query returns every stored contact and nothing else |
| `Controllers.ValidFitsColumns` | Crud_FIAP_Debora_Krikowski/Data/ApplicationDbContext.cs:29-49 | a contact that passes validation fits every column limit of the table (100, 255, 11, 3) |
| `Controllers.ContatosController.constructor` | Crud_FIAP_Debora_Krikowski/Controllers/ContatosController.cs:22-26 | process start: the shared table, which keeps the table's guarantees, and the shared cache, still empty |
| `Controllers.ContatosController.AdvanceClock` | Crud_FIAP_Debora_Krikowski/Controllers/ContatosController.cs:104-107 | the clock the cache measures lifetimes against moves forward; store and cache are unchanged |
| `Controllers.ContatosController.Create` | Crud_FIAP_Debora_Krikowski/Controllers/ContatosController.cs:30-50 | validation errors give BadRequest with all messages; then an email already stored gives BadRequest; a non-zero body Id gives `StoreFailure(ExplicitIdentityInsert)`, and an identity counter already past 2147483647 gives `StoreFailure(IdentityExhausted)`, both with the store unchanged; otherwise exactly one record is added under a fresh id and returned. That record equals the input except for the id, and every other record is unchanged. The cache is never touched |
| `Controllers.ContatosController.GetAll` | Crud_FIAP_Debora_Krikowski/Controllers/ContatosController.cs:54-80 | a live cached list under the query's key is returned as is; otherwise the matching stored contacts are read. If there are none the result is NotFound and nothing is cached; otherwise the list is cached for 10 minutes and returned. The store never changes |
| `Controllers.ContatosController.GetById` | Crud_FIAP_Debora_Krikowski/Controllers/ContatosController.cs:85-112 | an id that does not parse gives BadRequest and changes nothing. A live cached contact is returned even if the store has changed since. Otherwise an absent id gives NotFound and nothing is cached; a present id is cached for 5 minutes and returned |
| `Controllers.ContatosController.Update` | Crud_FIAP_Debora_Krikowski/Controllers/ContatosController.cs:119-149 | checks in order: path id ≠ body Id gives BadRequest; validation errors give BadRequest; an absent id gives NotFound. Otherwise the stored record becomes the body and no other record changes. The cache is never touched |
| `Controllers.ContatosController.Delete` | Crud_FIAP_Debora_Krikowski/Controllers/ContatosController.cs:153-174 | an id that does not parse gives BadRequest; an absent id gives NotFound; otherwise exactly that id is removed. All other records and the cache are kept |
| `ControllerScenarios.NoEntryForFreshId` | Crud_FIAP_Debora_Krikowski/Controllers/ContatosController.cs:95-108 | the cache holds no contact under the key of an id the store has not handed out yet |
| `ControllerScenarios.CreateThenGetById` | Crud_FIAP_Debora_Krikowski/Controllers/ContatosController.cs:49 | the contact returned by Create is what GetById returns for its id |
| `ControllerScenarios.StaleItemAfterUpdate` | Crud_FIAP_Debora_Krikowski/Controllers/ContatosController.cs:144-145 | GetById called again after a successful Update of the same id returns the contact cached before the update, while the store holds the new one |
| `ControllerScenarios.StaleListAfterCreate` | Crud_FIAP_Debora_Krikowski/Controllers/ContatosController.cs:46-47 | a list cached before a Create is served again unchanged and does not contain the new contact |
| `ControllerScenarios.GetByIdAfterItemTtl` | Crud_FIAP_Debora_Krikowski/Controllers/ContatosController.cs:104-107 | once 5 minutes have passed, GetById answers from the store |
| `ControllerScenarios.GetAllAfterListTtl` | Crud_FIAP_Debora_Krikowski/Controllers/ContatosController.cs:77 | once 10 minutes have passed, GetAll answers from the store |
| `ControllerScenarios.DeleteThenCreate` | Crud_FIAP_Debora_Krikowski/Controllers/ContatosController.cs:168-169 | the id of a deleted contact is never given to a later Create |

The controller's `Valid()` invariant holds before and after every action. It is `StoreInvariant` plus `CacheInvariant`.
- Store: row keys equal row ids; ids lie in [1, next identity); emails are unique; every value fits its column.
- Cache: lists are non-empty and sit under list keys; a contact sits under its own item key; cached contacts have ids already handed out.
- Cache lifetimes: no list entry expires later than 10 minutes from now, and no item entry later than 5 minutes from now.

## Left out

- HTTP: routing, status codes, response bodies and the Portuguese message texts. Messages are an enum of kinds, and each action's result is modelled as an `Outcome`.
- ASP.NET model binding and `[ApiController]` automatic validation are not modelled; the actions are called directly, as the unit tests do. For `Update`, a path id that is not an int is refused by binding before the action runs; the model takes an `Int32` there.
- `async`/`await` and concurrent requests sharing the process-wide cache; every action runs atomically.
- Entity Framework change tracking and object identity. The cached contact can be the same object as a tracked entity; the model caches values. Create returns the stored record rather than the mutated input object.
- The Content-Type middleware, host bootstrap, migrations, Swagger and the thin service classes: wiring with no contact policy.
- Contact fields are never null in the model. The validator treats a null field exactly like an empty one, since `IsNullOrWhiteSpace` is true for both.
- `string.Length` counts UTF-16 code units. The model counts Dafny characters (Unicode scalar values), so lengths differ for text outside the Basic Multilingual Plane.
- `int.TryParse` is modelled with the invariant `+` and `-` signs, and `int.ToString` in the item key `contato_{id}` with the invariant `-`. Culture-specific sign strings are not modelled in either. For the item key this is unobservable for stored ids, which are positive.
- SQL Server collation is not modelled. The DDD filter, the duplicate-email check and the unique index all use exact string equality.
- `ToListAsync` has no `ORDER BY`, so the database picks the row order. The model returns rows in ascending id order (the clustered primary-key order).
- Database ids: a monotone identity counter starting at the value the table was created with. Deleted ids are never reused. Once the counter has passed Int32.MaxValue (2147483647), SQL Server's identity overflow makes the insert fail; the model answers `StoreFailure(IdentityExhausted)` and leaves the store unchanged.
- `Create` with a non-zero body Id is modelled as `StoreFailure(ExplicitIdentityInsert)`: SQL Server refuses an explicit value for an identity column. The in-memory provider used by the tests would store the given Id instead.
- `Update` has no email check of its own. An email already used by another id is modelled as `StoreFailure(UniqueEmailViolation)`, the unique index rejecting the save.
- Other database failures (connectivity, timeouts) are not modelled.
- `MemoryCache` internals: removing an expired entry on read, compaction, and memory-pressure eviction. An expired entry is never served, so keeping it in the map is unobservable.
