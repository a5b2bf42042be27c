# dconfig daemon helpers: connection keys, configuration ids and the object pool

A Dafny model of `dconfig-center/dconfig-daemon/dconfig_global.h`, the
support header of the DConfig configuration daemon. It covers:

- the **connection-key codec**: a `ConnKey` is a resource key and a numeric
  connection ordinal joined at the key's *last* `/` (`getResourceKey`,
  `getConnectionKey`), on top of the Qt 5 string operations they use
  (`lastIndexOf`, `left`, `mid`, `toUInt`). `Number` is the canonical
  decimal rendering the round-trip lemma is stated for;
- the **configuration-id resolvers**: `getAppConfigureId` matches a path
  against the two anchored patterns `usrReg` (`/usr/share/dsg/apps/...`) and
  `optReg` (`/opt/apps/...`), and `getGenericConfigureId` against a pattern
  anchored at a data-directory root. Each pattern is modelled twice: as the
  language it denotes (`TailDenotes`, `RuleDenotes`, `GenericDenotes`) and
  as a deterministic parser (`MatchTail`, `MatchAppRule`, `MatchGeneric`).
  Lemmas show the parser accepts exactly that language and recovers exactly
  the named captures. The patterns are modelled as PCRE reads them. The
  unescaped `.` before `json` matches any character except a newline. `$`
  matches at the end or just before one final newline. `\s` covers space,
  tab, line feed, vertical tab, form feed and carriage return;
- **`ObjectPool`**, a class. Its free list `pool` is reassigned in place by
  `Pull` (dequeue, or create a fresh `Item` and run the hook on it) and
  `Push` (enqueue). The hook's invocations are recorded in the ghost log
  `inits`. `Valid()` says the hook never runs twice on the same object.

Files: `wrappers.dfy` (Option), `qt_string.dfy` (module `QtString`),
`connection_key.dfy` (`ConnectionKey`), `configure_id.dfy`
(`ConfigurePath`), `object_pool.dfy` (`Pool`).

Facts about the code that the model makes explicit:

- `getResourceKey` of a key without `/` is the whole key, because
  `left(-1)` returns the whole string.
- `getGenericConfigureId` stores the `appid` capture, which the pattern
  lacks, into `subpath`, and the `subpath` capture into `resource`. See
  Findings.
- `<root>/org.app/general.json` is outside the generic language: a sub-path
  segment is a single character and `.` is not in the character class
  (`DottedGenericSegmentUnresolved`).
- `pull` after `push(pull())` returns the same object only when the free
  list held at most one object, because the list is FIFO. `PushThenPull`
  and `ReuseAfterPush` prove reuse for the empty pool; `FifoReuse` proves
  that with two objects the next pull returns the other one.
- Decoding `r + "/" + number(n)` gives back `r` and `n` for every resource
  key `r`, including one whose own last segment is numeric, because only
  the last `/` separates the parts (`ConnectionKey.RoundTrip`).
- The data-directory root is spliced into the generic pattern unescaped.
  The model treats it as literal text.

## Model

| member | source | states |
|---|---|---|
| QtString.LastIndexOf | dconfig-center/dconfig-daemon/dconfig_global.h:38 | -1 exactly when the character is absent; otherwise an index holding the character with none after it |
| QtString.ParseDecimal | dconfig-center/dconfig-daemon/dconfig_global.h:42 | a value exactly when the text is a non-empty run of decimal digits |
| QtString.ToUInt | dconfig-center/dconfig-daemon/dconfig_global.h:42 | the result fits in 32 bits, and any non-digit gives 0 |
| QtString.Number | dconfig-center/dconfig-daemon/dconfig_global.h:40-43 | the rendering is all digits, canonical (leading `0` only for 0) and holds no `/` |
| QtString.ParseNumber | dconfig-center/dconfig-daemon/dconfig_global.h:42 | strict parsing inverts the decimal rendering |
| QtString.NumberParse | dconfig-center/dconfig-daemon/dconfig_global.h:42 | the rendering inverts parsing on canonical digit strings, so the two are a bijection |
| QtString.ToUIntNumber | dconfig-center/dconfig-daemon/dconfig_global.h:42 | toUInt reads back every 32-bit value that was rendered in decimal |
| QtString.ToUIntOverflow | dconfig-center/dconfig-daemon/dconfig_global.h:42 | a decimal value past 32 bits reads as 0 |
| QtString.ToUIntEmpty | dconfig-center/dconfig-daemon/dconfig_global.h:42 | the empty suffix reads as 0 |
| QtString.Left | dconfig-center/dconfig-daemon/dconfig_global.h:38 | the first `n` characters when 0 <= n < size, otherwise the whole string (so `left(-1)` is the whole string) |
| QtString.Mid | dconfig-center/dconfig-daemon/dconfig_global.h:42 | the last size - pos characters: "" past the end, the whole string for a negative position |
| QtString.ParseLeadingZero | dconfig-center/dconfig-daemon/dconfig_global.h:42 | a leading zero does not change the value of a non-empty digit string |
| QtString.ParseZerosNumber | dconfig-center/dconfig-daemon/dconfig_global.h:42 | any run of leading zeros before the rendering of n still parses as n |
| QtString.DigitsDecompose | dconfig-center/dconfig-daemon/dconfig_global.h:42 | every non-empty digit string is some zeros followed by the canonical rendering of its value |
| QtString.ToUIntZeros | dconfig-center/dconfig-daemon/dconfig_global.h:42 | toUInt of zeros followed by the rendering of n is n when n fits in 32 bits and 0 otherwise; with DigitsDecompose this covers every digit string |
| QtString.ToUIntLeadingZeroExample | dconfig-center/dconfig-daemon/dconfig_global.h:42 | "007" reads as 7 |
| ConnectionKey.GetResourceKey | dconfig-center/dconfig-daemon/dconfig_global.h:36-39 | with a `/`: the prefix before the last `/` (the next character is `/`, and no `/` follows it); without one: the whole key |
| ConnectionKey.GetConnectionKey | dconfig-center/dconfig-daemon/dconfig_global.h:40-43 | toUInt of the text after the resource key and its `/`, or of the whole key when it has no `/`; always a 32-bit value |
| ConnectionKey.SplitAtLastSlash | dconfig-center/dconfig-daemon/dconfig_global.h:36-43 | in r + "/" + d with d free of `/`, the resource key is r and the suffix is d |
| ConnectionKey.RoundTrip | dconfig-center/dconfig-daemon/dconfig_global.h:36-43 | for any resource key r (slashes allowed) and 32-bit n, decoding r + "/" + number(n) gives r and n |
| ConnectionKey.ReEncode | dconfig-center/dconfig-daemon/dconfig_global.h:36-43 | re-encoding a decoded key gives the key back if and only if its suffix is the decimal rendering of the decoded ordinal |
| ConnectionKey.ReEncodeCanonical | dconfig-center/dconfig-daemon/dconfig_global.h:36-43 | a key whose suffix is a canonical 32-bit decimal re-encodes to itself |
| ConnectionKey.MalformedOrdinal | dconfig-center/dconfig-daemon/dconfig_global.h:40-43 | a suffix with a non-digit still splits off the resource key and decodes to ordinal 0 |
| ConnectionKey.NoSeparator | dconfig-center/dconfig-daemon/dconfig_global.h:36-43 | a key without `/` is its own resource key, and the whole key is parsed as the ordinal |
| ConnectionKey.ExampleNumeric | dconfig-center/dconfig-daemon/dconfig_global.h:36-43 | "a/b/c/42" gives "a/b/c" and 42 |
| ConnectionKey.ExampleMalformed | dconfig-center/dconfig-daemon/dconfig_global.h:36-43 | "a/b/c/xyz" gives "a/b/c" and 0 |
| ConnectionKey.ExampleEmptyOrdinal | dconfig-center/dconfig-daemon/dconfig_global.h:36-43 | "abc/" gives "abc" and 0 |
| ConfigurePath.UsrDenotes | dconfig-center/dconfig-daemon/dconfig_global.h:55 | the language of usrReg with its named captures; MatchAppRuleSound and MatchAppRuleComplete tie the parser to it |
| ConfigurePath.OptDenotes | dconfig-center/dconfig-daemon/dconfig_global.h:57 | the language of optReg with its named captures; MatchAppRuleSound and MatchAppRuleComplete tie the parser to it |
| ConfigurePath.GenericDenotes | dconfig-center/dconfig-daemon/dconfig_global.h:81 | the language of the generic pattern; MatchGeneric and GenericAsWritten tie the parser to it |
| ConfigurePath.MatchTail | dconfig-center/dconfig-daemon/dconfig_global.h:55 | whatever the tail parser returns is a decomposition in the tail language `(/C)*/C+.json$` |
| ConfigurePath.MatchTailComplete | dconfig-center/dconfig-daemon/dconfig_global.h:55 | every decomposition in the tail language is the one the parser returns, so captures are unique |
| ConfigurePath.MatchRestSound | dconfig-center/dconfig-daemon/dconfig_global.h:55-57 | whatever the parser after the prefix returns is in the language after the prefix with those captures |
| ConfigurePath.MatchRestComplete | dconfig-center/dconfig-daemon/dconfig_global.h:55-57 | when the middle literal starts with `/`, the parser after the prefix finds every match and its captures |
| ConfigurePath.MatchAppRule | dconfig-center/dconfig-daemon/dconfig_global.h:55-57 | a match has a token appid, a `(/C)*` subpath and a token resource; MatchAppRuleSound and MatchAppRuleComplete state that it accepts exactly the rule's language |
| ConfigurePath.MatchAppRuleSound | dconfig-center/dconfig-daemon/dconfig_global.h:55-57 | whatever the rule parser returns is in the rule's language with those captures |
| ConfigurePath.MatchAppRuleComplete | dconfig-center/dconfig-daemon/dconfig_global.h:55-57 | when the middle literal starts with `/`, the rule parser finds every match and its captures |
| ConfigurePath.TemplateDenotes | dconfig-center/dconfig-daemon/dconfig_global.h:54-57 | prefix + a + middle + s + "/" + t + ".json" with valid a, s, t is in the rule's language with captures {a, s, t} |
| ConfigurePath.MatchAppRuleSplit | dconfig-center/dconfig-daemon/dconfig_global.h:55-57 | after a valid appid and the middle literal, the rule's answer is the tail parser's answer |
| ConfigurePath.AppIdRejected | dconfig-center/dconfig-daemon/dconfig_global.h:55-57 | when the text between the prefix and the next `/` is not a token, the rule does not match |
| ConfigurePath.PrefixMismatch | dconfig-center/dconfig-daemon/dconfig_global.h:55-57 | a path that differs from the prefix at any position does not match |
| ConfigurePath.UsrPathNotOpt | dconfig-center/dconfig-daemon/dconfig_global.h:57 | no path under `/usr/share/dsg/apps/` matches optReg |
| ConfigurePath.OptPathNotUsr | dconfig-center/dconfig-daemon/dconfig_global.h:55 | no path under `/opt/apps/` matches usrReg |
| ConfigurePath.GetAppConfigureId | dconfig-center/dconfig-daemon/dconfig_global.h:51-72 | the result is all-empty, or has a token appid, a `(/C)*` subpath and a token resource |
| ConfigurePath.GetAppConfigureIdSound | dconfig-center/dconfig-daemon/dconfig_global.h:51-72 | the result is all-empty or a match of usrReg or of optReg with its captures |
| ConfigurePath.RulesExclusive | dconfig-center/dconfig-daemon/dconfig_global.h:59-66 | no path is in both languages, so the order in which the rules are tried cannot change a result |
| ConfigurePath.UsrResolves | dconfig-center/dconfig-daemon/dconfig_global.h:59-69 | a path in usrReg's language resolves to exactly its captures |
| ConfigurePath.OptResolves | dconfig-center/dconfig-daemon/dconfig_global.h:59-69 | a path in optReg's language resolves to exactly its captures, although usrReg is tried first |
| ConfigurePath.NeitherResolves | dconfig-center/dconfig-daemon/dconfig_global.h:63-64 | a path in neither language yields the all-empty id |
| ConfigurePath.UsrRoundTrip | dconfig-center/dconfig-daemon/dconfig_global.h:54-69 | `/usr/share/dsg/apps/`+a+`/configs`+s+`/`+t+`.json` resolves to exactly {a, s, t} |
| ConfigurePath.OptRoundTrip | dconfig-center/dconfig-daemon/dconfig_global.h:56-69 | `/opt/apps/`+a+`/files/schemas/configs`+s+`/`+t+`.json` resolves to exactly {a, s, t} |
| ConfigurePath.UsrAnyDotFinalNewline | dconfig-center/dconfig-daemon/dconfig_global.h:55 | any non-newline character in place of the `.`, plus one final newline, still resolves to {a, s, t} |
| ConfigurePath.UsrNewlineForDot | dconfig-center/dconfig-daemon/dconfig_global.h:55 | a newline in place of the `.` does not resolve |
| ConfigurePath.LongSegmentUnresolved | dconfig-center/dconfig-daemon/dconfig_global.h:55 | a two-character sub-path segment does not resolve |
| ConfigurePath.UpperCaseUnresolved | dconfig-center/dconfig-daemon/dconfig_global.h:55 | an upper-case letter in the appid does not resolve |
| ConfigurePath.DottedAppIdUnresolved | dconfig-center/dconfig-daemon/dconfig_global.h:57 | a `.` in the appid does not resolve |
| ConfigurePath.ForeignPathUnresolved | dconfig-center/dconfig-daemon/dconfig_global.h:63-64 | `/etc/foo.json` does not resolve |
| ConfigurePath.SingleSegmentResolves | dconfig-center/dconfig-daemon/dconfig_global.h:55 | `/usr/share/dsg/apps/a/configs/b/x.json` resolves to {"a", "/b", "x"} |
| ConfigurePath.MatchGeneric | dconfig-center/dconfig-daemon/dconfig_global.h:81-84 | whatever the generic parser returns is in the generic language with those captures |
| ConfigurePath.GetGenericConfigureId | dconfig-center/dconfig-daemon/dconfig_global.h:74-91 | as written: appid and subpath are always empty, and resource is empty or a sub-path |
| ConfigurePath.GenericAsWritten | dconfig-center/dconfig-daemon/dconfig_global.h:84-88 | a match with captures s and t yields {"", "", s} |
| ConfigurePath.GenericNoMatch | dconfig-center/dconfig-daemon/dconfig_global.h:84-90 | a path outside the generic language yields the all-empty id |
| ConfigurePath.GenericFieldsMisassigned | dconfig-center/dconfig-daemon/dconfig_global.h:86-87 | for root + "/a/general.json" the code yields resource "/a" and no subpath, where the captures are "/a" and "general" |
| ConfigurePath.GenericTemplateDenotes | dconfig-center/dconfig-daemon/dconfig_global.h:81-84 | root + s + "/" + t + ".json" with a valid s and t is in the generic language with captures s and t |
| ConfigurePath.GenericRoundTrip | dconfig-center/dconfig-daemon/dconfig_global.h:81-88 | as written, root + s + "/" + t + ".json" resolves to {"", "", s} |
| ConfigurePath.GetGenericConfigureIdIntended | dconfig-center/dconfig-daemon/dconfig_global.h:84-88 | with each capture stored in its own field: appid empty, and a non-empty result is a match with those captures |
| ConfigurePath.GenericIntendedResolves | dconfig-center/dconfig-daemon/dconfig_global.h:84-88 | the intended resolver returns exactly {"", s, t} for a match with captures s and t |
| ConfigurePath.GenericIntendedRoundTrip | dconfig-center/dconfig-daemon/dconfig_global.h:81-88 | with the intended mapping, root + s + "/" + t + ".json" resolves to exactly {"", s, t} |
| ConfigurePath.GenericIntendedUnresolved | dconfig-center/dconfig-daemon/dconfig_global.h:84-90 | the intended resolver is all-empty if and only if the path is outside the generic language |
| ConfigurePath.DottedGenericSegmentUnresolved | dconfig-center/dconfig-daemon/dconfig_global.h:81 | root + "/org.app/general.json" resolves to nothing under either mapping |
| Pool.ObjectPool.constructor | dconfig-center/dconfig-daemon/dconfig_global.h:120-122 | a new pool has an empty free list, no hook and an empty log |
| Pool.ObjectPool.SetInitFunc | dconfig-center/dconfig-daemon/dconfig_global.h:105 | installs the hook and changes nothing else |
| Pool.ObjectPool.Pull | dconfig-center/dconfig-daemon/dconfig_global.h:107-117 | non-empty: returns the head, keeps the rest in order and does not run the hook; empty: returns a fresh object, leaves the list empty and logs one hook call on it exactly when a hook is set; the hook never runs twice on one object |
| Pool.ObjectPool.Push | dconfig-center/dconfig-daemon/dconfig_global.h:118 | appends the object at the tail and changes nothing else |
| Pool.ObjectPool.Destroy | dconfig-center/dconfig-daemon/dconfig_global.h:99-103 | each entry of the free list is appended once to the deletion log, in order, and the list is cleared |
| Pool.ReuseAfterPush | dconfig-center/dconfig-daemon/dconfig_global.h:107-118 | on an empty pool with a hook, pull, push, pull returns the same fresh object, and the hook ran on it once |
| Pool.PushThenPull | dconfig-center/dconfig-daemon/dconfig_global.h:107-118 | push(x) then pull on an empty pool returns x without running the hook |
| Pool.FifoReuse | dconfig-center/dconfig-daemon/dconfig_global.h:107-118 | with [a, b] in the pool, pull, push, pull returns a then b |

## Findings

| source | as written | input that shows it | evidently intended | confidence | as-written member | corrected member |
|---|---|---|---|---|---|---|
| dconfig-center/dconfig-daemon/dconfig_global.h:86-87 | `subpath` is taken from the capture "appid", which this pattern lacks, and `resource` from the capture "subpath" | root + "/a/general.json" yields {"", "", "/a"} | {"", "/a", "general"}: each capture in the field of the same name | high (the fields are swapped against the pattern's group names; not executed) | ConfigurePath.GetGenericConfigureId, ConfigurePath.GenericFieldsMisassigned | ConfigurePath.GetGenericConfigureIdIntended, ConfigurePath.GenericIntendedResolves |

As written, a generic match with an empty sub-path yields the all-empty id.
It cannot be told apart from no match. `GetGenericConfigureId` is modelled
as the code has it. The intended variant stands beside it, with its own
proofs.

## Left out

- `getProcessNameByPid` (lines 125-136): reads `/proc/<pid>/status`, which is file I/O.
- `getUserNameByUid` (lines 141-149): a foreign `getpwuid` call. There is nothing to verify. Its result is dereferenced without a null check at line 145.
- `DStandardPaths::filePath` (lines 79, 82) is an external library. It becomes the `root` parameter. The call at line 79 discards its result and has no effect.
- The `static` patterns are compiled once. The generic root is read once, at the first call, and cached for the life of the process. The model takes the root per call.
- The root is spliced into the generic pattern unescaped. The model assumes it holds no regex metacharacters and treats it as literal text.
- The regex engine itself is not modelled, only the language of these three patterns. The model assumes PCRE2's default LF newline convention and no Unicode properties for `\s`.
- QtString.ToUInt: Qt 5's `toUInt` also skips leading and trailing whitespace and accepts a leading `+`. The model gives 0 for such a suffix. Plain digit strings, empty text, non-digits and overflow agree with Qt.
- ConnectionKey.GetConnectionKey: inherits the whitespace and `+` simplification of `QtString.ToUInt`.
- Qt's distinction between a null and an empty `QString` is not modelled. An unmatched capture and an empty one both read as "".
- Pool.ObjectPool: the pooled type `T` is the concrete class `Item`. Whatever `new T()` and the hook do to an object is not modelled. The model records only which hook ran on which object.
- Pool.ObjectPool.Destroy: `qDeleteAll` is modelled as a ghost log of deleted objects, not as freeing memory. Objects checked out of the pool are not tracked.
- Pool.ObjectPool.Push: the same object may be pushed twice, as in the code, where a second push of one object is undefined; `Destroy` then logs that object twice. Nothing marks a pool as destroyed, so `Pull` and `Push` remain callable afterwards.
- The pool has no locking. Concurrent use is not modelled.
- The `ConnServiceName` and `ConnRefCount` aliases carry nothing to model.
