# os2web_simplesaml: indexed SAML attribute extraction

This project models `SimpleSamlManager::extractAttribute`, the one piece of logic in the
os2web_simplesaml Drupal module. The method returns the value of an attribute of the
current SimpleSAMLphp session. It also accepts an indexed identifier such as
`eduPersonAffiliation[1]`, which selects one value of a multi-valued attribute.

The method works in three steps:

- It tests the identifier against `/(\S*)\[(\d+)\]/` with `preg_match_all`. Only the groups
  of the first match are used.
- On a match, it reads `getAttributes()`. It returns `$attributes[$name][$index]` when that
  element is set and not `empty()`, and PHP's `NULL` otherwise. This path raises nothing of
  its own. Anything `getAttributes()` itself may raise is not represented here.
- Without a match, it returns the manager's `getAttribute($attribute)`. Any exception that
  call raises passes through.

The model is pure, like the source. It has five modules:

- `Ascii`: the character classes `\s` and `\d`.
- `AttributePattern`: the pattern. It has two parts:
  - a declarative definition of a match (`IsMatch`) and of the match PCRE reports first
    (`IsFirstMatch`: leftmost start, then longest name);
  - a matcher that searches the way a backtracking engine does (`Search`, `MatchAt`,
    `Backtrack`, `BracketedIndexAt`). Each of its functions is proved against the definition.
- `Php`: PHP's `empty()` on strings, and the array-key coercion that decides which list
  element a digit string reaches. A string key becomes an integer key only when it is the
  canonical decimal spelling of an integer no larger than `PHP_INT_MAX`, so `"01"` misses
  every list.
- `SimpleSamlManager`: `ExtractAttribute` and the properties of its two paths.
- `Wrappers`: `Option`.

The framework service lookup is replaced by parameters:

- `attributes` is what `getAttributes()` returns, and `None` means "not set";
- `getAttribute` is the accessor, a function from identifier to `Outcome`. An `Outcome` is a
  string, `NULL`, or an exception that passes through.

Attribute names are looked up in a `map<string, seq<string>>`. This lookup agrees with PHP's
own lookup, because PHP's key coercion maps distinct strings to distinct keys.

Two behaviours that a quick reading may miss:

- An identifier with a non-numeric bracket, such as `foo[abc]`, does not match. It is handed
  to `getAttribute`, not answered with `NULL`: the `else` at line 47 belongs to the pattern
  test.
- The name group is `\S*`: any run of non-whitespace, brackets included. In `a[1][2]` the
  name is `a[1]` and the index is `2`.

## Model

| member | source | states |
|---|---|---|
| `SimpleSamlManager.ExtractAttribute` | src/Service/SimpleSamlManager.php:29-52 | Without a pattern match, the result is exactly the accessor's result on the unchanged identifier, exception included. With a match, the result is a value or NULL, never an exception, and a returned value is not empty. |
| `SimpleSamlManager.IndexedIgnoresAccessor` | src/Service/SimpleSamlManager.php:35-49 | With a match, the result is the same whatever the accessor does, so the accessor is never consulted. |
| `SimpleSamlManager.IndexedValueIsStoredElement` | src/Service/SimpleSamlManager.php:36-43 | A value returned on the indexed path is the element of the first match's name at position n, where the index group is the decimal spelling of n. The store is set, holds the name, and the value is not empty. |
| `SimpleSamlManager.IndexedFindsStoredElement` | src/Service/SimpleSamlManager.php:39-43 | Conversely, a non-empty element at the position the index spells is returned. |
| `SimpleSamlManager.IndexedUnsetStoreIsNull` | src/Service/SimpleSamlManager.php:39-51 | With a match and an unset attribute store, the result is NULL. |
| `SimpleSamlManager.IndexedMissingNameIsNull` | src/Service/SimpleSamlManager.php:41-51 | A name missing from the store yields NULL. |
| `SimpleSamlManager.IndexedPastEndIsNull` | src/Service/SimpleSamlManager.php:42-51 | An index whose value is at or past the end of the named values yields NULL, however it is spelled. |
| `SimpleSamlManager.IndexedLeadingZeroIsNull` | src/Service/SimpleSamlManager.php:37-42 | An index with a leading zero (such as "01") stays a string key and yields NULL. |
| `SimpleSamlManager.IndexedEmptyElementIsNull` | src/Service/SimpleSamlManager.php:42-51 | An element that `empty()` accepts ("" or "0") yields NULL. |
| `SimpleSamlManager.SecondValueExample` | src/Service/SimpleSamlManager.php:18-20 | "eduPersonAffiliation[1]" against values A, B, C gives "B", the value at index 1. |
| `SimpleSamlManager.SingleValueExample` | src/Service/SimpleSamlManager.php:35-43 | "eduPersonAffiliation[0]" against the single value A gives "A". |
| `SimpleSamlManager.PastEndExample` | src/Service/SimpleSamlManager.php:42-51 | "eduPersonAffiliation[5]" against three values gives NULL. |
| `SimpleSamlManager.MissingAttributeExample` | src/Service/SimpleSamlManager.php:41-51 | "missingAttr[0]" against a store without that name gives NULL. |
| `SimpleSamlManager.LeadingZeroExample` | src/Service/SimpleSamlManager.php:37-42 | "eduPersonAffiliation[01]" gives NULL even though a value exists at index 1. |
| `SimpleSamlManager.NonNumericIndexExample` | src/Service/SimpleSamlManager.php:35-48 | "foo[abc]" is handed to the accessor unchanged, and its result or exception is returned. |
| `AttributePattern.Parse` | src/Service/SimpleSamlManager.php:35-37 | The pattern test and the two groups used. The result is nothing exactly when the identifier contains no `name[digits]` occurrence. Otherwise it is the name and the index of a first match: leftmost start, then longest name. `ParseFirstMatch`, `FirstMatchUnique` and `ParseGroups` state that these are the groups of the unique first match, and what they contain. |
| `AttributePattern.NameEnd` | src/Service/SimpleSamlManager.php:35 | The first reach of `\S*` from a position: every character up to it is non-whitespace, and the next character is whitespace or the end of input. |
| `AttributePattern.DigitsEnd` | src/Service/SimpleSamlManager.php:35 | The reach of `\d+`: every character up to it is a digit, and the next one is not. |
| `AttributePattern.BracketedIndexAt` | src/Service/SimpleSamlManager.php:35 | Finds the closing bracket of `\[(\d+)\]` at a position exactly when that part of the pattern can match there. |
| `AttributePattern.Backtrack` | src/Service/SimpleSamlManager.php:35 | Giving back name characters one at a time finds the longest name, below the bound, that is followed by a bracketed index, or reports that there is none. |
| `AttributePattern.MatchAt` | src/Service/SimpleSamlManager.php:35 | At a start position, the longest name that leads to a match, or no match at that start. |
| `AttributePattern.Search` | src/Service/SimpleSamlManager.php:35-37 | Finds the leftmost start that matches, with the longest name there; no result means no match anywhere. |
| `AttributePattern.FirstMatchUnique` | src/Service/SimpleSamlManager.php:35-37 | The first match is unique, so the groups `$matches[1][0]` and `$matches[2][0]` are well defined. |
| `AttributePattern.FirstMatchExists` | src/Service/SimpleSamlManager.php:35-37 | When any match exists, a first match exists. |
| `AttributePattern.ParseFirstMatch` | src/Service/SimpleSamlManager.php:35-37 | The groups used are those of the first match: its name and its index. |
| `AttributePattern.ParseGroups` | src/Service/SimpleSamlManager.php:35-37 | The name has no whitespace, the index is a non-empty digit string, and `name[index]` occurs in the identifier. |
| `AttributePattern.FirstMatchStartsWord` | src/Service/SimpleSamlManager.php:35 | The first match's name reaches back to the start of the identifier or to a whitespace character. |
| `AttributePattern.WholeMatchIsFirst` | src/Service/SimpleSamlManager.php:35 | A match that spans the whole identifier is the first match. |
| `AttributePattern.ParseFirstOccurrenceExample` | src/Service/SimpleSamlManager.php:35-37 | In "a[1] b[2]" only the first occurrence is used: name "a", index "1". |
| `AttributePattern.ParseLongestNameExample` | src/Service/SimpleSamlManager.php:35-37 | In "a[1][2]" the name is "a[1]" and the index is "2". |
| `AttributePattern.ParseAfterSpaceExample` | src/Service/SimpleSamlManager.php:35-37 | In "x y[1]" the name is "y". |
| `AttributePattern.NonNumericIndexExample` | src/Service/SimpleSamlManager.php:35 | "foo[abc]" does not match the pattern. |
| `AttributePattern.PlainNameExample` | src/Service/SimpleSamlManager.php:35 | "eduPersonAffiliation" does not match the pattern. |
| `Ascii.IsSpace` | src/Service/SimpleSamlManager.php:35 | PCRE's `\s` in its default tables: space, tab, line feed, vertical tab, form feed and carriage return. Its role in the pattern is stated by `NameEnd`, `ParseGroups`, `FirstMatchStartsWord` and `ParseAfterSpaceExample`. |
| `Ascii.IsDigit` | src/Service/SimpleSamlManager.php:35 | PCRE's `\d` without Unicode properties: the ASCII digits. Its role is stated by `DigitsEnd`, `BracketedIndexAt` and `ParseGroups`, which shows the index is all digits. |
| `Php.IsEmpty` | src/Service/SimpleSamlManager.php:42 | `empty()` on a string value: true only for "" and "0". Its effect is stated by `IndexedEmptyElementIsNull`, and by `ExtractAttribute`, which never returns an empty value on the indexed path. |
| `Php.DecimalValue` | src/Service/SimpleSamlManager.php:42 | The integer a digit string denotes when PHP converts an array key. `DecimalValueOfString` and `CanonicalRoundTrip` show that it inverts `DecimalString` on canonical strings. |
| `Php.DecimalString` | src/Service/SimpleSamlManager.php:42 | The decimal spelling of a position is a non-empty digit string. `DecimalValueOfString`, `DecimalStringIsCanonical` and `CanonicalRoundTrip` show that it is the canonical spelling and the inverse of `DecimalValue`. |
| `Php.ListIndex` | src/Service/SimpleSamlManager.php:42 | PHP's conversion of a string key into an integer key, as far as a list is concerned. A key reaches a position only when it is that position's decimal spelling and the position is at most PHP_INT_MAX. A key that reaches no position spells no position in that range. |
| `Php.ListElement` | src/Service/SimpleSamlManager.php:42 | The read `$list[$key]` yields a value exactly when the key spells a position inside the list, and the value is the element at that position. |
| `Php.ListIndexSpelling` | src/Service/SimpleSamlManager.php:42 | A digit string reaches list position n if and only if it is the decimal spelling of n and n is at most PHP_INT_MAX. |
| `Php.DecimalValueOfString` | src/Service/SimpleSamlManager.php:42 | Reading back the decimal spelling of n gives n. |
| `Php.CanonicalRoundTrip` | src/Service/SimpleSamlManager.php:42 | A canonical digit string is the decimal spelling of its own value. |
| `Php.DecimalStringIsCanonical` | src/Service/SimpleSamlManager.php:42 | The decimal spelling of n is canonical, and starts with '0' only for n = 0. |
| `Php.ListElementPastEnd` | src/Service/SimpleSamlManager.php:42 | A digit string whose value is past the end of a list reaches no element of it. |
| `Php.ListElementLeadingZero` | src/Service/SimpleSamlManager.php:42 | A digit string with a leading zero reaches no list element. |

## Left out

- The framework lookup `\Drupal::service('simplesamlphp_auth.manager')` (line 31) is global container state. The store and the accessor are parameters instead.
- The internals of `getAttributes()` and `getAttribute()` (lines 39 and 48) belong to the simplesamlphp_auth module, which is not part of this model. The store is an input, so anything `getAttributes()` might raise on the indexed path is not represented. The accessor is an arbitrary function whose result is a string, `NULL` or an exception; other PHP values it might return (the declared `bool|mixed|null`) are not modelled.
- The exception type `SimplesamlphpAttributeException` is an opaque type parameter. The model only says that it passes through unchanged.
- PCRE failure is left out. `preg_match_all` returns `false` when it hits `pcre.backtrack_limit` or the JIT stack limit, and the code would then delegate to `getAttribute`. The model assumes the match always completes.
- PHP strings are bytes; the model uses Dafny characters. Characters outside ASCII count as non-whitespace and non-digits, as in PCRE's default tables without the `u` flag.
- `PHP_INT_MAX` is the 64-bit value. On a 32-bit build the bound in `Php.IntMax` would be 2147483647.
- Non-string identifiers, and attribute values that are not lists of strings (a scalar value, or an array with non-sequential keys), are not modelled: the store's values are `seq<string>`.
- The SAML protocol and session management belong to external libraries.
