# Pokémon lookup and summary pipeline, modelled in Dafny

The program looks up one Pokémon on PokeAPI, normalises the loosely typed JSON
reply into an eight-field record, and optionally asks the NaviGator
chat-completion API for a short summary of that record. This project models
the decision logic of that pipeline as pure Dafny functions and proves what it
promises:

- `Api` (`assignment0/api.py`): the single GET and how each transport outcome
  becomes a lookup error; the normaliser `parse_pokemon_response` over a JSON
  datatype, with Python truthiness, `dict.get` and the iteration quirks
  written out; their composition `get_pokemon_data`.
- `Llm` (`assignment0/llm.py`): the credential check, the single POST, the
  500-character quoting of an error body, and the ladder that walks
  `choices[0].message.content`.
- `Cli` (`assignment0/cli.py`): `main` as a function of its parsed arguments
  and of the two stages, giving the exit status and the stage calls made.
- Shared modules: `Outcomes` (the result type), `Json` (decoded JSON values),
  `Http` (transport outcomes), `Text` (`str.strip()`, integer formatting,
  slicing, substrings).

Each stage returns `Ok`, `Fail(msg)` (the stage's own exception class,
`PokeAPIError` or `NavigatorAIError`, with its message) or `Crash` (any other
Python exception, which no caller catches). The network is a function from
request to transport outcome, and a stage returns the requests it sent, so
"one attempt" and "no request without a key" are statements about that list.

In these places the model follows the code, which a reader might not expect:

- The normaliser refuses only a missing or `null` name. An empty string or a
  number is accepted as the name.
- `types` and `abilities` keep any truthy `name` value, not only strings.
- `stats` keeps any non-null `base_stat`. Its keys are any hashable non-null
  name, including `""`. Python identifies `True` with `1` as a dict key, so
  the model keys stats by `StatKey`, where booleans become integers.
- A `types`, `abilities` or `stats` field that is present but `null`, or a
  list entry that is not an object, raises instead of being skipped.
- A reply body that is not a JSON object makes `summarize_with_navigator`
  raise. It does not produce a summary error.

## Model

| member | source | states |
|---|---|---|
| Api.LookupUrl | assignment0/api.py:24 | the URL is the fixed `…/pokemon/` prefix followed by the identifier, which can be read back from it |
| Api.TimeoutMessage | assignment0/api.py:28-29 | the timeout error says "timed out" and the timeout value parses back from its text |
| Http.StatusText | assignment0/api.py:33-34 | a status code is rendered as decimal text that parses back to the code; a missing status renders as `None` |
| Api.HttpMessage | assignment0/api.py:32-34 | the HTTP error starts with "HTTP error ", then the status text, then the library's detail unchanged |
| Api.FetchPokemon | assignment0/api.py:18-39 | exactly one GET, to the lookup URL with the given timeout. Timeout, connection, HTTP and bad-JSON outcomes each give their own lookup error. A decoded body is returned unchanged. The fetch raises exactly when the request library raises an exception none of its handlers names |
| Api.NamesFrom | assignment0/api.py:60-64 | the extraction loop raises exactly when some entry is not an object, and otherwise yields only truthy names, no more of them than there are entries |
| Api.SelectsSnoc | assignment0/api.py:60-64 | one more loop iteration keeps the selection: a named entry appends its position and its name, any other object entry appends nothing |
| Api.NamesFromSelects | assignment0/api.py:60-64 | the extracted names are exactly the names of the entries whose wrapper is an object with a truthy `name`, in entry order. Each name comes from the position `SelectedIndices` lists, and every named entry is used |
| Api.WrappedNames | assignment0/api.py:60-72 | `types`/`abilities` are never empty. They raise exactly when the field is `null`, a boolean, a number, a non-empty string or object, or a list with a non-object entry |
| Api.WrappedNamesMeaning | assignment0/api.py:60-72 | the list is exactly `["unknown"]` when no entry is named, and otherwise exactly the named entries' names in order, with nothing added |
| Api.KeyOf | assignment0/api.py:79 | a string name is stored under that string, an integer under that integer, and `True`/`False` under the integers 1/0, as in a Python dict |
| Api.KeyOfIsPyEq | assignment0/api.py:79 | two names land on the same stats key exactly when Python's `==` finds them equal (`True == 1`, `"1" != 1`) |
| Api.KeyCollisions | assignment0/api.py:79 | `True` and `1`, and `False` and `0`, share a key; `"1"` and `1` do not; `True` and `False` do not |
| Api.StatsFrom | assignment0/api.py:74-79 | the stats loop raises exactly when an entry is not an object, or when an entry that would be stored has a list or object as its name |
| Api.StatsLastWins | assignment0/api.py:74-79 | `stats` has a key exactly when some entry is stored under it, and the value is that of the last such entry |
| Api.StatsField | assignment0/api.py:74-79 | an absent `stats` field behaves as an empty list. The field raises exactly as its entries or its non-list shape dictate |
| Api.ParsePokemon | assignment0/api.py:42-90 | a non-object gives "Expected a JSON object". A missing or null name gives the missing-name error. These are the only lookup errors. A crash happens exactly when a list field is malformed. On success the name is copied from the input and `id`, `height`, `weight` and `base_experience` are copied (null when absent). `types` and `abilities` are non-empty |
| Api.ParsedNameLists | assignment0/api.py:60-72 | in a parsed record, `types` and `abilities` are `["unknown"]` when no entry is named, and otherwise the named entries' names in order |
| Api.ParsedStats | assignment0/api.py:74-79 | in a parsed record, `stats` is last-entry-wins over the stored entries, and it is empty when the input has no `stats` |
| Api.OddNamesPass | assignment0/api.py:51-53 | an empty-string or numeric name is accepted and copied; a null name and a list input are refused with their messages |
| Api.NullListRaises | assignment0/api.py:61-62 | a `null` `types` field or a `null` list entry raises; an object entry without a wrapper is skipped |
| Api.FullRecordExample | tests/test_api.py:26-51 | the unit tests' full record yields `["fire","flying"]`, `["blaze","solar-power"]` and `{"hp":78,"attack":84}` |
| Api.GetPokemonData | assignment0/api.py:93-100 | one GET. An anticipated fetch failure is passed on with its message and nothing is parsed; any other library exception escapes. A decoded body is parsed, and a successful result carries the fetched name |
| Text.Strip | assignment0/llm.py:53 | the result is a slice of the input with no whitespace at either end, and only whitespace lies outside it |
| Text.StrippedUnique | assignment0/llm.py:128 | only one slice of a string has the stripped shape: stripping is fully determined |
| Text.StripIsStrip | assignment0/llm.py:128 | any slice with the stripped shape is what `Strip` returns, and stripping twice changes nothing |
| Text.StripEmpty | assignment0/llm.py:48 | stripping gives `""` exactly when the string is all whitespace |
| Text.NatTextRoundTrip | assignment0/api.py:29 | the decimal text of a natural number parses back to that number |
| Text.IntTextRoundTrip | assignment0/llm.py:94 | the decimal text of an integer, sign included, parses back to that integer |
| Text.Truncate | assignment0/llm.py:102 | `s[:n]` is a prefix of `s` of length `min(len(s), n)` |
| Llm.ApiKey | assignment0/llm.py:44-53 | the key is refused, with the "not set" message, exactly when the variable is absent, empty or all whitespace. Otherwise the result is non-empty and is the key with surrounding whitespace removed |
| Llm.KeyMessageNamesVariable | assignment0/llm.py:49-52 | the missing-key message names `NAVIGATOR_TOOLKIT_API_KEY` and says "not set" |
| Llm.TimeoutMessage | assignment0/llm.py:93-94 | the timeout error says "timed out" and the timeout value parses back from its text |
| Llm.HttpErrorMessage | assignment0/llm.py:97-105 | "NaviGator HTTP {status}: " is followed by at most 500 characters. They are a prefix of the body, the whole body when it is short, and nothing when there is no body |
| Llm.ExtractContent | assignment0/llm.py:112-128 | the first failing stage decides the error. A missing, empty or non-list `choices` gives "no choices", a non-object first choice "choice not an object", a non-object message "no message", and null content "empty content". A non-object reply raises. String content comes back stripped, other content through `str()` |
| Llm.OnlyFirstChoiceMatters | assignment0/llm.py:116 | choices after the first never change the outcome |
| Llm.EmptyChoicesExample | tests/test_llm.py:94-106 | `{"choices": []}` gives the "no choices" error |
| Llm.StringReply | assignment0/llm.py:124-128 | string content in a well-formed reply is returned with surrounding whitespace removed |
| Llm.EmptyContentExample | assignment0/llm.py:124-128 | `""` content is returned as `""`: only `null` content is refused |
| Llm.PaddedContentExample | assignment0/llm.py:128 | `" hi\n"` content comes back as `"hi"` |
| Llm.Summarize | assignment0/llm.py:70-128 | without a usable key there is no request and the result is the "not set" error. With a key there is exactly one POST, to the chat URL with `Bearer <stripped key>`, the fixed model and the given timeout. Each anticipated transport outcome maps to its own error, any other library exception escapes, and a decoded reply goes through the extraction ladder |
| Cli.Main | assignment0/cli.py:56-84 | an unsupported source returns 1 and calls nothing. Otherwise the lookup is called first and exactly once, with the parsed identifier and timeout. The summariser is called at most once, only after a displayable lookup without `--no-llm`, with the record and timeout 60. The result is 0 exactly when the lookup and display succeed and the summary is skipped or succeeds. It is 1 exactly for an unsupported source, a lookup error, or a summary error |
| Cli.LookupFailureStops | assignment0/cli.py:64-68 | with the real lookup, an anticipated GET failure ends the run with status 1 after the lookup call alone; any other library exception escapes `main` after that call |
| Cli.MissingKeyFailsAfterLookup | assignment0/cli.py:76-82 | with the real summariser and an absent, empty or all-whitespace credential, a run that displays the record without `--no-llm` calls the lookup, then the summariser, and returns 1; the summariser never sends a request |

## Left out

- Network I/O (`requests.get`, `requests.post`, `raise_for_status`, `resp.json()`) is replaced by transport functions returning `Http.Transport`. Which library exceptions count as timeout, connection or HTTP errors is the library's business; every other one is `Http.Raised`. The text of `str(e)` is opaque (`detail`).
- The default `timeout` arguments of `fetch_pokemon` and `get_pokemon_data` (15) and of `summarize_with_navigator` (60) are not modelled: `main` always passes a timeout, so the model takes it as a parameter.
- `_load_env`, `load_dotenv` and the process-wide "already loaded" flag are not modelled: they are file-system and environment I/O. The environment is a map given to `Llm.ApiKey`.
- `_build_prompt` is not modelled. It relies on `json.dumps` pretty-printing. The request carries the record the prompt is built from, not the prompt text. The fixed system message and the `Content-Type` header are also omitted.
- `parse_args` (argparse) is not modelled: `main` takes the parsed `Cli.Args`. Argparse itself rejects any source other than `pokeapi` before `main` checks it.
- `format_pokemon_display` and every `print` are not modelled. The model keeps only whether display raises (`Cli.DisplayRaises`: `", ".join` over a non-string type or ability).
- Python's `str()` of non-string content is the parameter `pyStr`, because its text for lists and dicts depends on dict insertion order.
- Floating-point JSON numbers are not modelled. Integers, booleans, strings, null, lists and objects cover every field these functions read.
- Integer identifiers for `fetch_pokemon` are not modelled separately: the driver always passes a string, and an integer renders as its decimal text.
- Api.KeyOf: when `True` and `1` (or `False` and `0`) both name stats, Python keeps the key object inserted first. The model keeps only the integer key, so it does not say which of the two spellings a display would print.
- What the process exits with when an exception escapes `main` is not modelled (`Cli.Raised`).
