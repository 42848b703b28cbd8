# more-http-status-codes, modelled in Dafny

The package is a catalogue of HTTP status codes. Six TypeScript numeric enums
each map symbolic names to codes: `InformationalCodes` (1xx), `SuccessfulCodes`
(2xx), `RedirectionCodes` (3xx), `ClientErrorCodes` (4xx), `ServerErrorCodes`
(5xx) and `WebDAVCodes`, whose codes come from several classes. `src/index.ts`
spreads the six enum objects into one object, `HttpStatusCodes`. Its function
`listSupportedCodesByNode` sorts that object's keys into those Node's
`STATUS_CODES` table knows and those it does not, and returns one of the two
lists.

The model has these modules:

- `StatusCode` (`status_code.dfy`): what every table has in common. A member
  is an `Entry(name, code)`. `EnumObject` is the object a numeric enum compiles
  to. Each member, in declaration order, sets its name to `Num(code)` and then
  the decimal string of its code to `Name(name)`.
- One module per enum file (`InformationalCodes`, `SuccessfulCodes`,
  `RedirectionCodes`, `ClientErrorCodes`, `ServerErrorCodes`, `WebDAVCodes`).
  Each holds the constant `Members`, the members in declaration order (for
  example `ClientErrorCodes.Members` is `src/enums/ClientErrorCodes.ts:25-314`),
  the facts about them, and the file's enum object.
- `CrossCategory`: the six files compared pairwise.
- `ObjectSpread`: object spread on enum objects (`src/index.ts:26-33`).
- `Reconciliation`: the filter, the `reduce` and the flag of
  `listSupportedCodesByNode` (`src/index.ts:49-75`). The `reduce` is a method
  whose loop appends to the two lists. It is proved against the pure
  `Partition` function.
- `HttpStatusCodes`: the merged object `HttpStatusCodes` and what the function
  makes of it.
- `Sequences`: subsequences and repetition, which the order properties need.

`isNaN` is applied to the value of each key, not to the key. Because of the
reverse mapping, the keys it keeps are therefore the code strings such as
"404". The symbolic names such as "NOT_FOUND" have number values and are
dropped. Node's `STATUS_CODES` is keyed by code strings too, so the comparison
does match. `HttpStatusCodes.HostCodeKeysMatched`
and `HttpStatusCodes.NamesNeverReported` state both sides of this for any host
table; `HttpStatusCodes.HostNameIsNeverSupported` adds that a host table keyed
by names, none of whose keys begins with a digit, matches nothing. A reading
of the function as comparing symbolic names, which would never match Node's
table, disagrees with the code. The model follows the code.

## Model

| member | source | states |
|---|---|---|
| StatusCode.CodeKey | src/enums/ClientErrorCodes.ts:16-315 | the property key of a code is `String(code)`: a non-empty string of decimal digits, one digit exactly for codes below 10, and without a leading zero unless the code is 0; with `StatusCode.ParseCodeKey` this pins it to the decimal string |
| StatusCode.ParseCodeKey | src/enums/ClientErrorCodes.ts:16-315 | reading a reverse key back as a decimal number gives the code it was made from: the key "404" stands for 404 |
| StatusCode.CodeKeyInjective | src/enums/ClientErrorCodes.ts:16-315 | different codes have different keys, so two reverse entries of an enum never collide |
| StatusCode.EnumObject | src/enums/ClientErrorCodes.ts:16-315 | the object a numeric enum compiles to: in declaration order each member sets its name to its code, then its code string to its name; its keys, values and size are stated by `StatusCode.EnumObjectKeys`, `StatusCode.EnumObjectLookup` and `StatusCode.EnumObjectSize` |
| StatusCode.NameIsNotCodeKey | src/enums/ClientErrorCodes.ts:16-315 | a member name (it begins with a letter) is never the key of a code (it begins with a digit), so forward and reverse entries never collide |
| StatusCode.IncreasingCodesDistinct | src/enums/ClientErrorCodes.ts:25-314 | codes that rise from each member to the next rise between any two members, so they are pairwise distinct |
| StatusCode.WellFormedConcat | src/index.ts:26-33 | two well-formed tables that share no name and no code join into a well-formed table |
| StatusCode.EnumObjectKeys | src/enums/ClientErrorCodes.ts:16-315 | the keys of an enum object are exactly its members' names and the decimal strings of their codes |
| StatusCode.KeyOwner | src/enums/ClientErrorCodes.ts:16-315 | every key of an enum object is the name or the code string of one of its members, and the member is returned |
| StatusCode.EnumObjectLookup | src/enums/ClientErrorCodes.ts:16-315 | in a well-formed enum object a member's name maps to its code and the string of its code maps back to its name (the reverse mapping round trip) |
| StatusCode.LastKeysFresh | src/enums/ClientErrorCodes.ts:16-315 | the last member of a well-formed table adds two keys that no earlier member set and that differ from each other |
| StatusCode.ForwardKeysCount | src/enums/ClientErrorCodes.ts:16-315 | a well-formed enum object has one number-valued entry per member |
| StatusCode.ReverseKeysCount | src/enums/ClientErrorCodes.ts:16-315 | a well-formed enum object has one name-valued entry per member |
| StatusCode.ReverseKeysAreCodeKeys | src/enums/ClientErrorCodes.ts:16-315 | the name-valued keys of a well-formed enum object are exactly the code strings of its members |
| StatusCode.EnumObjectSize | src/enums/ClientErrorCodes.ts:16-315 | a well-formed enum object has exactly two entries per member: nothing is overwritten |
| StatusCode.EnumObjectConcat | src/index.ts:26-33 | the enum object of two tables joined is the object of the first overwritten by the object of the second |
| InformationalCodes.CodesInClass | src/enums/InformationalCodes.ts:8-42 | there are 3 members and every code lies in 100..199 (1xx informational) |
| InformationalCodes.CodesIncrease | src/enums/InformationalCodes.ts:22-42 | each code is larger than the one declared before it |
| InformationalCodes.NamesAreIdentifiers | src/enums/InformationalCodes.ts:22-42 | every member name begins with an upper-case letter |
| InformationalCodes.NamesDistinct | src/enums/InformationalCodes.ts:22-42 | no member name is declared twice |
| InformationalCodes.MembersWellFormed | src/enums/InformationalCodes.ts:10-43 | names and codes are pairwise distinct, so the enum object loses no member |
| InformationalCodes.KnownMembers | src/enums/InformationalCodes.ts:22-42 | CONTINUE = 100, SWITCHING_PROTOCAL = 101 (spelled as in the source) and EARLY_HINTS = 103; 102 is not a member |
| InformationalCodes.Object | src/enums/InformationalCodes.ts:10-43 | the compiled enum object has two entries per member; each name gives its code and each code string gives its name back |
| SuccessfulCodes.CodesInClass | src/enums/SuccessfulCodes.ts:9-106 | there are 8 members and every code lies in 200..299 (2xx successful) |
| SuccessfulCodes.CodesIncrease | src/enums/SuccessfulCodes.ts:28-106 | each code is larger than the one declared before it |
| SuccessfulCodes.NamesAreIdentifiers | src/enums/SuccessfulCodes.ts:28-106 | every member name begins with an upper-case letter |
| SuccessfulCodes.NamesDistinct | src/enums/SuccessfulCodes.ts:28-106 | no member name is declared twice |
| SuccessfulCodes.MembersWellFormed | src/enums/SuccessfulCodes.ts:11-107 | names and codes are pairwise distinct, so the enum object loses no member |
| SuccessfulCodes.KnownMembers | src/enums/SuccessfulCodes.ts:28-106 | OK = 200 first and IM_USED = 226 last; 207 and 208 are not members |
| SuccessfulCodes.Object | src/enums/SuccessfulCodes.ts:11-107 | the compiled enum object has two entries per member; each name gives its code and each code string gives its name back |
| RedirectionCodes.CodesInClass | src/enums/RedirectionCodes.ts:9-100 | there are 8 members and every code lies in 300..399 (3xx redirection) |
| RedirectionCodes.CodesIncrease | src/enums/RedirectionCodes.ts:22-100 | each code is larger than the one declared before it |
| RedirectionCodes.NamesAreIdentifiers | src/enums/RedirectionCodes.ts:22-100 | every member name begins with an upper-case letter |
| RedirectionCodes.NamesDistinct | src/enums/RedirectionCodes.ts:22-100 | no member name is declared twice |
| RedirectionCodes.MembersWellFormed | src/enums/RedirectionCodes.ts:11-113 | names and codes are pairwise distinct, so the enum object loses no member |
| RedirectionCodes.KnownMembers | src/enums/RedirectionCodes.ts:22-100 | MULTIPLE_CHOICE = 300 first, USE_PROXY = 305 directly followed by TEMPORARY_REDIRECT = 307, PERMANENT_REDIRECT = 308 last; 306 is not a member |
| RedirectionCodes.Object | src/enums/RedirectionCodes.ts:11-113 | the compiled enum object has two entries per member; each name gives its code and each code string gives its name back |
| ClientErrorCodes.CodesInClass | src/enums/ClientErrorCodes.ts:14-314 | there are 26 members and every code lies in 400..499 (4xx client error) |
| ClientErrorCodes.CodesIncrease | src/enums/ClientErrorCodes.ts:25-314 | each code is larger than the one declared before it |
| ClientErrorCodes.NamesAreIdentifiers | src/enums/ClientErrorCodes.ts:25-314 | every member name begins with an upper-case letter |
| ClientErrorCodes.NamesDistinct | src/enums/ClientErrorCodes.ts:25-314 | no member name is declared twice |
| ClientErrorCodes.MembersWellFormed | src/enums/ClientErrorCodes.ts:16-315 | names and codes are pairwise distinct, so the enum object loses no member |
| ClientErrorCodes.KnownMembers | src/enums/ClientErrorCodes.ts:73-314 | NOT_FOUND = 404, IM_A_TEAPOT = 418 and UNAVAILABLE_FOR_LEGAL_REASONS = 451 last; 422, 423 and 424 are not members |
| ClientErrorCodes.Object | src/enums/ClientErrorCodes.ts:16-315 | the compiled enum object has two entries per member; each name gives its code and each code string gives its name back |
| ServerErrorCodes.CodesInClass | src/enums/ServerErrorCodes.ts:10-116 | there are 9 members and every code lies in 500..599 (5xx server error) |
| ServerErrorCodes.CodesIncrease | src/enums/ServerErrorCodes.ts:25-116 | each code is larger than the one declared before it |
| ServerErrorCodes.NamesAreIdentifiers | src/enums/ServerErrorCodes.ts:25-116 | every member name begins with an upper-case letter |
| ServerErrorCodes.NamesDistinct | src/enums/ServerErrorCodes.ts:25-116 | no member name is declared twice |
| ServerErrorCodes.MembersWellFormed | src/enums/ServerErrorCodes.ts:12-117 | names and codes are pairwise distinct, so the enum object loses no member |
| ServerErrorCodes.KnownMembers | src/enums/ServerErrorCodes.ts:25-116 | INTERNAL_SERVER_ERROR = 500 first and NETWORK_AUTHENTICATION_REQUIRED = 511 last; 507 and 508 are not members |
| ServerErrorCodes.Object | src/enums/ServerErrorCodes.ts:12-117 | the compiled enum object has two entries per member; each name gives its code and each code string gives its name back |
| WebDAVCodes.CodesInClass | src/enums/WebDAVCodes.ts:8-68 | there are 8 members and every code lies in 100..599 (WebDAV, any class) |
| WebDAVCodes.CodesIncrease | src/enums/WebDAVCodes.ts:21-68 | each code is larger than the one declared before it |
| WebDAVCodes.NamesAreIdentifiers | src/enums/WebDAVCodes.ts:21-68 | every member name begins with an upper-case letter |
| WebDAVCodes.NamesDistinct | src/enums/WebDAVCodes.ts:21-68 | no member name is declared twice |
| WebDAVCodes.MembersWellFormed | src/enums/WebDAVCodes.ts:12-69 | names and codes are pairwise distinct, so the enum object loses no member |
| WebDAVCodes.KnownMembers | src/enums/WebDAVCodes.ts:21-68 | PROCESSING = 102 first, LOCKED = 423 (declared after a comment on the same line) and LOOP_DETECTED = 508 last |
| WebDAVCodes.Object | src/enums/WebDAVCodes.ts:12-69 | the compiled enum object has two entries per member; each name gives its code and each code string gives its name back |
| CrossCategory.WebDAVInformationalDisjoint | src/enums/WebDAVCodes.ts:21-68 | no name and no code of WebDAVCodes is also declared in InformationalCodes |
| CrossCategory.WebDAVSuccessfulDisjoint | src/enums/WebDAVCodes.ts:21-68 | no name and no code of WebDAVCodes is also declared in SuccessfulCodes |
| CrossCategory.WebDAVRedirectionDisjoint | src/enums/WebDAVCodes.ts:21-68 | no name and no code of WebDAVCodes is also declared in RedirectionCodes |
| CrossCategory.WebDAVClientErrorDisjoint | src/enums/WebDAVCodes.ts:21-68 | no name and no code of WebDAVCodes is also declared in ClientErrorCodes |
| CrossCategory.WebDAVServerErrorDisjoint | src/enums/WebDAVCodes.ts:21-68 | no name and no code of WebDAVCodes is also declared in ServerErrorCodes |
| CrossCategory.InformationalSuccessfulDisjoint | src/enums/InformationalCodes.ts:22-42 | no name and no code of InformationalCodes is also declared in SuccessfulCodes |
| CrossCategory.InformationalRedirectionDisjoint | src/enums/InformationalCodes.ts:22-42 | no name and no code of InformationalCodes is also declared in RedirectionCodes |
| CrossCategory.InformationalClientErrorDisjoint | src/enums/InformationalCodes.ts:22-42 | no name and no code of InformationalCodes is also declared in ClientErrorCodes |
| CrossCategory.InformationalServerErrorDisjoint | src/enums/InformationalCodes.ts:22-42 | no name and no code of InformationalCodes is also declared in ServerErrorCodes |
| CrossCategory.SuccessfulRedirectionDisjoint | src/enums/SuccessfulCodes.ts:28-106 | no name and no code of SuccessfulCodes is also declared in RedirectionCodes |
| CrossCategory.SuccessfulClientErrorDisjoint | src/enums/SuccessfulCodes.ts:28-106 | no name and no code of SuccessfulCodes is also declared in ClientErrorCodes |
| CrossCategory.SuccessfulServerErrorDisjoint | src/enums/SuccessfulCodes.ts:28-106 | no name and no code of SuccessfulCodes is also declared in ServerErrorCodes |
| CrossCategory.RedirectionClientErrorDisjoint | src/enums/RedirectionCodes.ts:22-100 | no name and no code of RedirectionCodes is also declared in ClientErrorCodes |
| CrossCategory.RedirectionServerErrorDisjoint | src/enums/RedirectionCodes.ts:22-100 | no name and no code of RedirectionCodes is also declared in ServerErrorCodes |
| CrossCategory.ClientErrorServerErrorDisjoint | src/enums/ClientErrorCodes.ts:25-314 | no name and no code of ClientErrorCodes is also declared in ServerErrorCodes |
| ObjectSpread.Spread | src/index.ts:26-33 | object spread `{ ...a, ...b, ... }`: no key of any object spread is lost; `ObjectSpread.SpreadKeys` and `ObjectSpread.SpreadLastWins` state its keys and which object decides each value |
| ObjectSpread.SpreadKeys | src/index.ts:26-33 | the spread has exactly the keys that some spread object has, and no other |
| ObjectSpread.SpreadLastWins | src/index.ts:26-33 | when several objects have a key, the one spread last decides its value |
| ObjectSpread.EnumObjects | src/index.ts:26-33 | the list of enum objects has one object per table, each the enum object of its table |
| ObjectSpread.SpreadEnumObjects | src/index.ts:26-33 | spreading the enum objects of several tables in order builds the enum object of all their members in that order |
| ObjectSpread.DisjointConcat | src/index.ts:26-33 | two tables that each share nothing with a third share nothing with it once joined |
| ObjectSpread.DisjointFlatten | src/index.ts:26-33 | any number of tables that each share nothing with a table share nothing with it once joined |
| ObjectSpread.WellFormedFlatten | src/index.ts:26-33 | well-formed tables that pairwise share no name and no code join into a well-formed table |
| ObjectSpread.FlattenCoversKey | src/index.ts:26-33 | when the joined table is well formed (no name or code shared between tables), every key of one table's enum object keeps its value in the enum object of the joined tables |
| ObjectSpread.FlattenCoversMember | src/index.ts:26-33 | when the joined table is well formed (no name or code shared between tables), both keys of one member keep their values in the enum object of the joined tables |
| ObjectSpread.MemberOfFlatten | src/index.ts:26-33 | a member of one table is a member of the joined tables |
| Reconciliation.NotANumber | src/index.ts:51 | `isNaN(HttpStatusCodes[key])`: the value is a name, or the key is missing and reads as `undefined`; `Reconciliation.EnumValuesNaN` states what it gives on an enum object |
| Reconciliation.EnumValuesNaN | src/index.ts:51 | on a well-formed enum object `isNaN` is false for every member name (its value is a number) and true for every code string (its value is a name) |
| Reconciliation.Kept | src/index.ts:50-51 | a key is kept exactly when it is among the listed keys and its value is not a number |
| Reconciliation.KeptKeepsOrder | src/index.ts:50-51 | the kept keys appear in the order they were listed |
| Reconciliation.KeptNoDuplicates | src/index.ts:50-51 | keys listed once are kept at most once |
| Reconciliation.Partition | src/index.ts:52-62 | the `reduce` into the accumulator `{ supported, unsupported }` (the datatype `Codes`, src/index.ts:61): a key is in `supported` exactly when it is kept and the host table has it, in `unsupported` exactly when it is kept and the host table lacks it, and the two lists hold as many keys as were kept |
| Reconciliation.PartitionIsSplit | src/index.ts:52-62 | each kept key lands in exactly one of the two lists: together they are the kept keys, counted with repetition |
| Reconciliation.PartitionKeepsOrder | src/index.ts:52-59 | both lists keep the order of the kept keys, since the accumulator only appends |
| Reconciliation.PartitionNoDuplicates | src/index.ts:52-62 | kept keys without repetition give lists without repetition |
| Reconciliation.UnknownKeysAreUnsupported | src/index.ts:54-58 | when the host table has none of the kept keys (an empty host table in particular) nothing is supported and the unsupported list is all kept keys in order |
| Reconciliation.ListSupportedCodesByNode | src/index.ts:49-75 | the loop's accumulator is the partition of the kept keys; the default flag `true` returns the supported list, `false` the unsupported one; a key is returned exactly when it is listed, its value is not a number and the host table has it precisely when the flag asks for supported keys |
| Reconciliation.OutputKeepsKeyOrder | src/index.ts:50-59 | each returned list is a subsequence of the `Object.keys` listing it came from |
| Reconciliation.IsKeyOrder | src/index.ts:39 | `Object.keys(HttpStatusCodes)` as any listing of the object's keys, each exactly once; `Reconciliation.KeyOrderLength` states its length |
| Reconciliation.KeyOrderLength | src/index.ts:39 | an `Object.keys` listing has exactly as many entries as the object has keys |
| Reconciliation.KeptOfEnum | src/index.ts:39-51 | of any well-formed enum object listed key by key the filter keeps exactly the code strings, once each, as many as there are members, and never a name |
| Reconciliation.HostCodeKeyOfEnum | src/index.ts:36-62 | for any host table, a member's code string is in the supported list exactly when the host table has it, and in the unsupported list exactly when it does not |
| Reconciliation.HostNameOfEnum | src/index.ts:36-62 | for any host table, a member's name is in neither list |
| Reconciliation.HostNamesOfEnum | src/index.ts:36-62 | a host table none of whose keys begins with a digit (keyed by names, in any letter case) matches nothing: the supported list is empty and the unsupported list is every kept key, in order |
| Reconciliation.HostCodeKeyAloneOfEnum | src/index.ts:36-62 | with a host table whose only key is a member's code string, the supported list is exactly that string and it is not reported unsupported |
| HttpStatusCodes.Merged | src/index.ts:26-33 | `HttpStatusCodes`, the six category objects spread in order, is the enum object of all 62 members in spread order |
| HttpStatusCodes.CategoriesAreExports | src/index.ts:26-33 | the objects spread are, in order, the objects the WebDAV, Informational, Successful, Redirection, ClientError and ServerError files export |
| HttpStatusCodes.AllMembersJoined | src/index.ts:26-33 | the members of the merged object are those of the six files in spread order |
| HttpStatusCodes.CategoriesDisjoint | src/index.ts:26-33 | no two of the six category tables share a name or a code |
| HttpStatusCodes.CategoriesWellFormed | src/index.ts:26-33 | each of the six category tables is well formed |
| HttpStatusCodes.AllMembersWellFormed | src/index.ts:26-33 | the merged catalogue has 62 members with pairwise distinct names and codes |
| HttpStatusCodes.MergeCoverage | src/index.ts:26-33 | every key of every category object is in `HttpStatusCodes` with the value that category gives it |
| HttpStatusCodes.MergeLossless | src/index.ts:26-33 | `HttpStatusCodes` has 62 forward entries (8 + 3 + 8 + 8 + 26 + 9), 62 reverse entries and 124 keys, the reverse keys being the members' code strings |
| HttpStatusCodes.KeptAreCodeStrings | src/index.ts:39-51 | of `HttpStatusCodes` the filter keeps exactly the 62 code strings, such as "404", once each, and drops every symbolic name, such as "NOT_FOUND" |
| HttpStatusCodes.HostCodeKeysMatched | src/index.ts:36-62 | for any host table, the code string of every catalogue member is supported exactly when the host table has it and unsupported exactly when it does not |
| HttpStatusCodes.NamesNeverReported | src/index.ts:36-62 | for any host table, no symbolic name of the catalogue is in either list |
| HttpStatusCodes.HostCodeKeyIsSupported | src/index.ts:36-62 | with a host table whose only key is "404", the supported list is exactly ["404"] |
| HttpStatusCodes.HostNameIsNeverSupported | src/index.ts:36-62 | a host table keyed by names, such as ["OK"] or ["ok"] (no key begins with a digit), matches nothing: the supported list is empty and all kept code strings are unsupported |
| HttpStatusCodes.NotFoundIsMember | src/enums/ClientErrorCodes.ts:73 | NOT_FOUND = 404 is in the merged catalogue and its code string is "404" |
| HttpStatusCodes.OkIsMember | src/enums/SuccessfulCodes.ts:28 | OK = 200 is in the merged catalogue |

## Left out

- `console.log` of the returned list (`src/index.ts:66`, `src/index.ts:71`) is output only. The model keeps only the return value.
- Node's `STATUS_CODES` (`src/index.ts:7`, `src/index.ts:36`) belongs to the runtime. Its key list is the parameter `host`, and `includes` is sequence membership.
- Reconciliation.ListSupportedCodesByNode: the module-level `HttpStatusCodes`, `httpStatusCodes` and `supportedByNodeStatusCodes` it closes over are the parameters `obj`, `keys` and `host`. The lemmas of `HttpStatusCodes` state what happens when `obj` is the merged object and `keys` lists its keys.
- The order in which `Object.keys` lists keys (`src/index.ts:39`) is not computed. JavaScript lists integer-like keys first, in ascending order. The model takes any listing that names every key once (`IsKeyOrder`) and proves that the output keeps whatever order it was given.
- Reconciliation.NotANumber: `isNaN`'s coercion of strings is not modelled. A `Name` value counts as not a number, and a missing key counts as `undefined`. For the catalogue this makes no difference: every name is upper snake case (letters, digits and underscores, beginning with a letter), and `Number` gives a number for no such string (the one word it reads, `Infinity`, is not upper snake case), so `isNaN` of every name string is true, as a `Name` value is here.
- StatusCode.IsEnumName checks only that a name begins with an upper-case letter. The rest of the upper snake case spelling is not checked, because nothing in the code depends on it.
- Object spread (`src/index.ts:26-33`) is a right-biased union of maps. Property attributes and enumerability are not modelled. Every enum key is an own enumerable property.
- The in-place `push` onto the accumulator's arrays (`src/index.ts:55`, `src/index.ts:57`) becomes reassignment of two sequences held in a `Codes` value. The arrays are fresh, so no aliasing is lost.
- Numbers are unbounded integers. Every code is a small positive integer, so JavaScript's floating point does not matter.
- The type intersection `OfficialHttpStatusCodes` and `as const` (`src/index.ts:12-17`, `src/index.ts:33`) have no runtime behaviour. The "immutable" doc claim (`src/index.ts:22`) is not enforced at runtime.
- The export lists (`src/index.ts:78-84`) are module plumbing.
- JSDoc text, RFC links and `@deprecated` / `@experimental` tags are documentation, not behaviour.
