# easy-es start-up configuration, modelled in Dafny

This project models the configuration-resolution logic of `EsAutoConfiguration`, the Spring Boot auto-configuration class of easy-es. It has two parts.

- **`restHighLevelClient`** reads the `address` property, a comma-separated `host:port` list, and checks it. It then builds one `HttpHost` per address item with the configured scheme, or with `DEFAULT_SCHEMA` when no scheme is set. It registers basic credentials only when both username and password are non-empty. The model yields a `ClientSpec` instead of a live client. A `ClientSpec` holds the ordered host list and the optional credential pair that would be handed to `RestClient.builder`. Each exception of the address checks, of `split` indexing, of `parseInt` and of `Enum.valueOf` becomes a `ConfigError`. The argument checks of `HttpHost`'s own constructor are not modelled (see "Left out").
- **`afterPropertiesSet`** starts from a fresh `DbConfig`. It copies a present table prefix verbatim. It upper-cases the id type and the field strategy and looks each one up by exact enum-constant name. The result goes into the global configuration cache and replaces what was there. An unknown enum value throws before anything is stored.

Files:

- `wrappers.dfy`: `Option` stands for a Java value that may be null, and `Result` for a value or a thrown exception.
- `java_lang.dfy` (module `JavaLang`): the Java library behaviour the code depends on.
  - `String.split` with a one-character separator and limit 0. With no separator the result is the whole string. Trailing empty strings are dropped and leading ones are kept.
  - the first index of a character (`|s|` when it is absent, not Java's -1), and `contains`.
  - `toUpperCase(Locale.ROOT)`, for ASCII letters only.
  - `Integer.parseInt`: an optional sign, decimal digits, and the 32-bit signed range.
  - `Enum.valueOf`.
- `core_config.dfy` (module `CoreConfig`): `DbConfig`, `GlobalConfig`, and the `GlobalConfigCache` slot.
- `es_auto_configuration.dfy` (module `AutoConfig`):
  - the configuration keys and the errors;
  - `ResolveClient` and `ResolveDbConfig`, the specification functions. The host list of `ResolveClient` is `CollectHosts`, a model of `forEach` that stops at the first exception, applied to `ParseSegment`;
  - the class `EsAutoConfiguration`. Its method `RestHighLevelClient` adds hosts in a loop and is proved equal to `ResolveClient`. Its method `AfterPropertiesSet` applies the setters one by one, writes the cache, and is proved against `ResolveDbConfig`;
  - the lemmas stating what the code promises.

Behaviour of the code worth knowing:

- The `':'` check in `restHighLevelClient` looks at the whole address string, not at each item. So `"a:1,b"` passes the check and then fails on `"b".split(":")[1]` with an index error (`AutoConfig.ColonCheckIsOnWholeAddress`).
- An item is cut at every `':'`. Its host is the untrimmed text before the first one, and its port is the text between the first and the second. An item made of `':'` characters only, such as `"::"`, fails on index 0, an item such as `"a:"` fails on index 1, and `"a::9"` fails on the empty port text (`AutoConfig.SegmentByFirstColon`).
- A port is any 32-bit `int` that `parseInt` accepts, such as `0`, `-5`, `+80` or `080`. The code checks no port range (`JavaLang.ParseInt`, `JavaLang.ParseIntPlusAndLeadingZero`).
- On success the host list is never empty (`AutoConfig.HostsFollowAddressItems`).
- A second `afterPropertiesSet` replaces the stored configuration as a whole. Nothing from the first is kept (`AutoConfig.SecondInitializationReplacesFirst`).

## Model

| member | source | states |
|---|---|---|
| JavaLang.FirstIndex | easy-es-boot-stater/src/main/java/com/xpc/easyes/autoconfig/config/EsAutoConfiguration.java:74-75 | the index found is the first occurrence of the character, and it lies inside the string exactly when the string contains the character |
| JavaLang.Pieces | easy-es-boot-stater/src/main/java/com/xpc/easyes/autoconfig/config/EsAutoConfiguration.java:73-75 | a string has at least one piece between separators, and no piece holds the separator |
| JavaLang.JoinPieces | easy-es-boot-stater/src/main/java/com/xpc/easyes/autoconfig/config/EsAutoConfiguration.java:73-75 | joining the pieces with the separator gives back the original string |
| JavaLang.PiecesJoin | easy-es-boot-stater/src/main/java/com/xpc/easyes/autoconfig/config/EsAutoConfiguration.java:73-75 | cutting a join of separator-free pieces gives back exactly those pieces, so the pieces are the unique decomposition |
| JavaLang.PiecesByFirstSeparator | easy-es-boot-stater/src/main/java/com/xpc/easyes/autoconfig/config/EsAutoConfiguration.java:74-75 | the first piece is the text before the first separator, and the other pieces are those of the text after it; a string with no separator is a single piece |
| JavaLang.PiecesWithoutSeparator | easy-es-boot-stater/src/main/java/com/xpc/easyes/autoconfig/config/EsAutoConfiguration.java:74-75 | a string with no separator is a single piece, itself |
| JavaLang.PiecesAtFirstSeparator | easy-es-boot-stater/src/main/java/com/xpc/easyes/autoconfig/config/EsAutoConfiguration.java:74-75 | a string with a separator is the text before the first one, then the pieces of the text after it |
| JavaLang.SeparatorsOnlyPiecesEmpty | easy-es-boot-stater/src/main/java/com/xpc/easyes/autoconfig/config/EsAutoConfiguration.java:73 | a string made of separators only cuts into empty pieces |
| JavaLang.NonSeparatorMakesPiece | easy-es-boot-stater/src/main/java/com/xpc/easyes/autoconfig/config/EsAutoConfiguration.java:73 | a character other than the separator ends up in some non-empty piece |
| JavaLang.NonEmptyPieceHasNonSeparator | easy-es-boot-stater/src/main/java/com/xpc/easyes/autoconfig/config/EsAutoConfiguration.java:73 | a non-empty piece means the string holds a character other than the separator |
| JavaLang.AllPiecesEmpty | easy-es-boot-stater/src/main/java/com/xpc/easyes/autoconfig/config/EsAutoConfiguration.java:73 | every piece is empty exactly when the string consists of separators only |
| JavaLang.DropTrailingEmpty | easy-es-boot-stater/src/main/java/com/xpc/easyes/autoconfig/config/EsAutoConfiguration.java:73-75 | the result is a prefix of the input, everything removed is empty, and the result is empty or ends in a non-empty string |
| JavaLang.Split | easy-es-boot-stater/src/main/java/com/xpc/easyes/autoconfig/config/EsAutoConfiguration.java:73-75 | `split` keeps the pieces in order and drops only trailing empty ones; when the separator occurs, the last kept piece is non-empty |
| JavaLang.SplitEmptyIff | easy-es-boot-stater/src/main/java/com/xpc/easyes/autoconfig/config/EsAutoConfiguration.java:73 | `split` returns no element exactly for a non-empty string made of separators only |
| JavaLang.ToUpperCase | easy-es-boot-stater/src/main/java/com/xpc/easyes/autoconfig/config/EsAutoConfiguration.java:106-108 | upper-casing keeps the length and maps each character to its upper-case form |
| JavaLang.ToUpperCaseIgnoresCase | easy-es-boot-stater/src/main/java/com/xpc/easyes/autoconfig/config/EsAutoConfiguration.java:106-108 | two strings upper-case to the same string if and only if they are equal ignoring case |
| JavaLang.ToUpperCaseKeepsUpper | easy-es-boot-stater/src/main/java/com/xpc/easyes/autoconfig/config/EsAutoConfiguration.java:106-108 | a string with no lower-case letter is left unchanged |
| JavaLang.ToUpperCaseIdempotent | easy-es-boot-stater/src/main/java/com/xpc/easyes/autoconfig/config/EsAutoConfiguration.java:106-108 | the result holds no lower-case letter, and upper-casing it again changes nothing |
| JavaLang.ParseInt | easy-es-boot-stater/src/main/java/com/xpc/easyes/autoconfig/config/EsAutoConfiguration.java:75 | anything but an optional `+` or `-` followed by at least one ASCII digit is rejected. An accepted text's digits denote the absolute value of the result, and a negative result needs a leading `-`. Every sign-and-digits text in the `int` range is accepted: digits below 2^31, or up to 2^31 after a `-`, leading zeros allowed, so `-02147483648` parses |
| JavaLang.LeadingZeroIgnored | easy-es-boot-stater/src/main/java/com/xpc/easyes/autoconfig/config/EsAutoConfiguration.java:75 | a leading `0` does not change the value of a digit string |
| JavaLang.ParseFormatInt | easy-es-boot-stater/src/main/java/com/xpc/easyes/autoconfig/config/EsAutoConfiguration.java:75 | `parseInt` reads back the decimal form of every 32-bit int |
| JavaLang.ParseIntPlusAndLeadingZero | easy-es-boot-stater/src/main/java/com/xpc/easyes/autoconfig/config/EsAutoConfiguration.java:75 | a port written with a `+` sign or a leading zero (`+80`, `080`) is still accepted with the same value |
| AutoConfig.ResolveSchema | easy-es-boot-stater/src/main/java/com/xpc/easyes/autoconfig/config/EsAutoConfiguration.java:70-71 | the configured schema, or `DEFAULT_SCHEMA` when it is absent or empty; its behaviour is stated by `SchemeIsUniform` |
| AutoConfig.ParseSegment | easy-es-boot-stater/src/main/java/com/xpc/easyes/autoconfig/config/EsAutoConfiguration.java:74-75 | `new HttpHost(item.split(":")[0], Integer.parseInt(item.split(":")[1]), schema)` with each of its exceptions, in Java's evaluation order; its behaviour is stated by `SegmentByFirstColon` and `ParseRenderedSegment` |
| AutoConfig.SegmentByFirstColon | easy-es-boot-stater/src/main/java/com/xpc/easyes/autoconfig/config/EsAutoConfiguration.java:74-75 | an item yields a host if and only if it holds a ':' and the text between its first and second ':' parses as an int. The host is the untrimmed text before the first ':' and further ':'-pieces are ignored. An item with no ':' fails on index 1. An item that splits to nothing (':' only) fails on index 0, one that splits to a single piece fails on index 1, and one with at least two pieces whose port text `parseInt` rejects fails with that port text. Item errors are only index or port errors |
| AutoConfig.ParseRenderedSegment | easy-es-boot-stater/src/main/java/com/xpc/easyes/autoconfig/config/EsAutoConfiguration.java:74-75 | an item written as `host:port`, with a host free of ':', reads back as that host and port |
| AutoConfig.CollectHosts | easy-es-boot-stater/src/main/java/com/xpc/easyes/autoconfig/config/EsAutoConfiguration.java:73-75 | `forEach` over the items, adding what each builds and stopping at the first exception; its behaviour is stated by the `CollectHosts` lemmas below |
| AutoConfig.CollectHostsLength | easy-es-boot-stater/src/main/java/com/xpc/easyes/autoconfig/config/EsAutoConfiguration.java:73-75 | a successful collection holds one host per item |
| AutoConfig.CollectHostsAt | easy-es-boot-stater/src/main/java/com/xpc/easyes/autoconfig/config/EsAutoConfiguration.java:73-75 | in a successful collection, host k is what item k builds |
| AutoConfig.CollectHostsAllBuilt | easy-es-boot-stater/src/main/java/com/xpc/easyes/autoconfig/config/EsAutoConfiguration.java:73-75 | when every item builds a host, the collection succeeds |
| AutoConfig.CollectHostsFirstFailure | easy-es-boot-stater/src/main/java/com/xpc/easyes/autoconfig/config/EsAutoConfiguration.java:73-75 | a failed collection reports the error of an item all of whose predecessors built a host |
| AutoConfig.CollectHostsFailureStops | easy-es-boot-stater/src/main/java/com/xpc/easyes/autoconfig/config/EsAutoConfiguration.java:73-75 | once a prefix of the items fails, the whole collection fails the same way, because `forEach` stops at the first exception |
| AutoConfig.ParseHosts | easy-es-boot-stater/src/main/java/com/xpc/easyes/autoconfig/config/EsAutoConfiguration.java:72-75 | the host list of the address items: `forEach` applied to `ParseSegment` with the resolved scheme; its behaviour is stated by `ParseHostsSpec` |
| AutoConfig.ParseHostsSucceeds | easy-es-boot-stater/src/main/java/com/xpc/easyes/autoconfig/config/EsAutoConfiguration.java:72-75 | the host list succeeds when every item does, and then holds one host per item in item order |
| AutoConfig.ParseHostsFirstFailure | easy-es-boot-stater/src/main/java/com/xpc/easyes/autoconfig/config/EsAutoConfiguration.java:73-75 | a failing host list reports the error of the first failing item, and every earlier item succeeds |
| AutoConfig.ParseHostsSpec | easy-es-boot-stater/src/main/java/com/xpc/easyes/autoconfig/config/EsAutoConfiguration.java:72-75 | the host list succeeds if and only if every item succeeds; it is then item-for-item, and otherwise it reports the first failure |
| AutoConfig.ParseHostsFailureStops | easy-es-boot-stater/src/main/java/com/xpc/easyes/autoconfig/config/EsAutoConfiguration.java:73-75 | once a prefix of the items fails, the whole list fails with that error, because `forEach` stops at the first exception |
| AutoConfig.ResolveCredentials | easy-es-boot-stater/src/main/java/com/xpc/easyes/autoconfig/config/EsAutoConfiguration.java:83-94 | the username and password when both are non-empty, otherwise none; its behaviour is stated by `CredentialsIffBothGiven` |
| AutoConfig.ResolveClient | easy-es-boot-stater/src/main/java/com/xpc/easyes/autoconfig/config/EsAutoConfiguration.java:61-98 | `restHighLevelClient` as a value: the client settings or the exception. Its behaviour is stated by `MissingAddressRejected`, `AddressWithoutColonRejected`, `ResolveSucceedsIff`, `FirstBadItemReported`, `HostsFollowAddressItems`, `SchemeIsUniform`, `CredentialsIffBothGiven` and `AddressRoundTrip` |
| AutoConfig.FirstBadItemReported | easy-es-boot-stater/src/main/java/com/xpc/easyes/autoconfig/config/EsAutoConfiguration.java:73-75 | a failure after the address checks is the failure of the first bad address item |
| AutoConfig.ItemErrorsAreNotAddressErrors | easy-es-boot-stater/src/main/java/com/xpc/easyes/autoconfig/config/EsAutoConfiguration.java:63-75 | once the address checks pass, the only possible errors are an index error or a port error |
| AutoConfig.MissingAddressRejected | easy-es-boot-stater/src/main/java/com/xpc/easyes/autoconfig/config/EsAutoConfiguration.java:63-66 | resolution fails with "please config the es address" if and only if the address is absent or empty |
| AutoConfig.AddressWithoutColonRejected | easy-es-boot-stater/src/main/java/com/xpc/easyes/autoconfig/config/EsAutoConfiguration.java:67-68 | resolution fails with "must contains port" if and only if the address is non-empty and holds no ':' anywhere |
| AutoConfig.ItemWithoutColonFailsOnIndex | easy-es-boot-stater/src/main/java/com/xpc/easyes/autoconfig/config/EsAutoConfiguration.java:67-75 | after the whole-string check passes, an item with no ':' that follows only good items fails on `split(":")[1]` |
| AutoConfig.ColonCheckIsOnWholeAddress | easy-es-boot-stater/src/main/java/com/xpc/easyes/autoconfig/config/EsAutoConfiguration.java:67-75 | an address such as `"a:1,b"`, a good `host:port` item and then a non-empty item with no ':', passes the ':' check and fails with an index error on the second item |
| AutoConfig.ResolveSucceedsIff | easy-es-boot-stater/src/main/java/com/xpc/easyes/autoconfig/config/EsAutoConfiguration.java:63-78 | resolution succeeds if and only if the address is non-empty, holds a ':', and every item holds a ':' followed by an int port text |
| AutoConfig.HostsFollowAddressItems | easy-es-boot-stater/src/main/java/com/xpc/easyes/autoconfig/config/EsAutoConfiguration.java:70-78 | on success there is exactly one host per element of `address.split(",")`, in the same order and never none. Host k has the text of item k before its first ':', the int between its first and second ':', and the resolved scheme |
| AutoConfig.SchemeIsUniform | easy-es-boot-stater/src/main/java/com/xpc/easyes/autoconfig/config/EsAutoConfiguration.java:70-75 | every host carries the configured schema, or `DEFAULT_SCHEMA` when that is empty |
| AutoConfig.CredentialsIffBothGiven | easy-es-boot-stater/src/main/java/com/xpc/easyes/autoconfig/config/EsAutoConfiguration.java:83-94 | credentials are attached if and only if username and password are both non-empty, and they are exactly those two values |
| AutoConfig.CredentialsDoNotAffectHosts | easy-es-boot-stater/src/main/java/com/xpc/easyes/autoconfig/config/EsAutoConfiguration.java:83-94 | username and password change neither the outcome, nor the error, nor the host list |
| AutoConfig.SplitRenderedAddress | easy-es-boot-stater/src/main/java/com/xpc/easyes/autoconfig/config/EsAutoConfiguration.java:67-73 | an address written as `h1:p1,h2:p2,...` passes the ':' check and splits back into exactly its items |
| AutoConfig.AddressRoundTrip | easy-es-boot-stater/src/main/java/com/xpc/easyes/autoconfig/config/EsAutoConfiguration.java:61-98 | resolving a written address gives back the same hosts and ports, in order, each with the resolved scheme, plus the resolved credentials |
| JavaLang.EnumValueOf | easy-es-boot-stater/src/main/java/com/xpc/easyes/autoconfig/config/EsAutoConfiguration.java:105-108 | `Enum.valueOf`: the constant with exactly the given name, or an exception; with upper-casing in front, its behaviour is stated by `EnumResolvesToMatchingConstant` |
| AutoConfig.ResolveEnum | easy-es-boot-stater/src/main/java/com/xpc/easyes/autoconfig/config/EsAutoConfiguration.java:105-108 | `Enum.valueOf(E.class, value.toUpperCase(Locale.ROOT))`; its behaviour is stated by `EnumResolvesToMatchingConstant` and `EnumResolutionIgnoresCase` |
| AutoConfig.EnumResolvesToMatchingConstant | easy-es-boot-stater/src/main/java/com/xpc/easyes/autoconfig/config/EsAutoConfiguration.java:105-108 | a value resolves to a constant if and only if that constant has no lower-case letter and equals the value ignoring case |
| AutoConfig.EnumResolutionIgnoresCase | easy-es-boot-stater/src/main/java/com/xpc/easyes/autoconfig/config/EsAutoConfiguration.java:105-108 | values that differ only in letter case, such as "auto" and "AUTO", resolve alike |
| AutoConfig.ResolveDbConfig | easy-es-boot-stater/src/main/java/com/xpc/easyes/autoconfig/config/EsAutoConfiguration.java:100-108 | `afterPropertiesSet` as a value: the resolved `DbConfig` or the first enum exception. Its behaviour is stated by `AbsentKeysKeepDefaults`, `TablePrefixCopiedWhenPresent`, `EnumKeysResolved` and `EnumKeysIgnoreCase` |
| AutoConfig.AbsentKeysKeepDefaults | easy-es-boot-stater/src/main/java/com/xpc/easyes/autoconfig/config/EsAutoConfiguration.java:102-108 | each absent key leaves its field at the built-in default, whatever the other keys hold; with none of the three keys present the result is the built-in `DbConfig` |
| AutoConfig.TablePrefixCopiedWhenPresent | easy-es-boot-stater/src/main/java/com/xpc/easyes/autoconfig/config/EsAutoConfiguration.java:104 | a present table prefix, even an empty one, is copied verbatim and never causes a failure; everything else is as if the key were absent |
| AutoConfig.EnumKeysResolved | easy-es-boot-stater/src/main/java/com/xpc/easyes/autoconfig/config/EsAutoConfiguration.java:105-108 | success if and only if each present enum value matches a constant with no lower-case letter, ignoring case. The stored constant is the one named exactly by the upper-cased value. An unknown id type fails first, then an unknown field strategy. An absent key keeps the default |
| AutoConfig.EnumKeysIgnoreCase | easy-es-boot-stater/src/main/java/com/xpc/easyes/autoconfig/config/EsAutoConfiguration.java:105-108 | rewriting an id type or field strategy value in another letter case leaves the outcome unchanged, including the error |
| AutoConfig.EsAutoConfiguration.SetEnvironment | easy-es-boot-stater/src/main/java/com/xpc/easyes/autoconfig/config/EsAutoConfiguration.java:54-57 | the configuration object now reads the given environment |
| AutoConfig.EsAutoConfiguration.RestHighLevelClient | easy-es-boot-stater/src/main/java/com/xpc/easyes/autoconfig/config/EsAutoConfiguration.java:61-98 | the client built by checking the address, adding hosts in a loop and attaching credentials is exactly `ResolveClient` |
| AutoConfig.EsAutoConfiguration.AfterPropertiesSet | easy-es-boot-stater/src/main/java/com/xpc/easyes/autoconfig/config/EsAutoConfiguration.java:100-111 | on success the cache holds exactly the freshly resolved `DbConfig`; on an unknown enum value the exception is reported and the cache is unchanged |
| AutoConfig.SecondInitializationReplacesFirst | easy-es-boot-stater/src/main/java/com/xpc/easyes/autoconfig/config/EsAutoConfiguration.java:100-111 | after two initialisations the cache holds only what the second one resolved, with nothing merged from the first |
| CoreConfig.GlobalConfigCache.SetGlobalConfig | easy-es-boot-stater/src/main/java/com/xpc/easyes/autoconfig/config/EsAutoConfiguration.java:110 | storing replaces whatever the slot held |

## Left out

- Spring wiring is not modelled: the annotations, `@ConditionalOnMissingBean` ("build only if absent") and the lifecycle order. The container decides these, not this code.
- `RestClient.builder`, `RestHighLevelClient`, `BasicCredentialsProvider` and the HTTP client callback are replaced by the `ClientSpec` value. They open network resources in an external library.
- `HttpHost`'s own argument handling is not modelled. It lower-cases the scheme and rejects a blank host name. Depending on the httpcore version, it may also reject any host name that holds whitespace. The httpcore source is not part of this model. So an item such as `":9200"` succeeds in the model with an empty host name. The second item of `"a:9200, b:9200"` succeeds with the host name `" b"`, leading space included. The library may throw in both cases.
- `EsConfigProperties` and `Environment` are one property map. The code checks address, username and password through `environment` but reads them through `esConfigProperties`. The model assumes both hold the same values.
- `DEFAULT_SCHEMA`, the enum constant names and the defaults of `DbConfig` are parameters (`LibraryConstants`). Their definitions are not part of this model. `COLON` is taken to be `":"`.
- `StringUtils.isEmpty` is not part of this model. It is assumed to mean null or of length 0.
- `toUpperCase(Locale.ROOT)` is modelled for ASCII letters only. Other characters are left unchanged, and special cases such as `'ß'` becoming `"SS"` are not modelled.
- `Integer.parseInt` accepts only ASCII digits in the model. Java also accepts other Unicode decimal digits.
- `GlobalConfig` is reduced to its `dbConfig` field. Its other fields are not set by this code.
- `DbConfig` is a value. The model does not capture the aliasing of the stored object with later mutation through the cache.
- `GlobalConfigCache` is modelled as an object passed to `AfterPropertiesSet`, not as static state. Thread safety is not modelled, and neither is its getter (read before initialisation).
- `String.split` is modelled only for a one-character separator that is not a regular-expression metacharacter. That is the only kind the code uses.
- Timeouts and other client settings are not modelled. The code leaves them as a TODO.
