# Lead-generation agent: verified model of its deterministic core

The lead-generation assistant takes an industry, a country and optional
requirements, lets three LLM-driven tasks search the web, filter and tabulate
candidate companies, saves the resulting markdown table under `leads/`, and
serves it through one HTTP endpoint. Almost all of that is orchestration of
foreign services. This project models the three pieces that are plain logic:

- **URL selection and fetching** (`process_search_results`): which search-result
  links the content fetcher may load, and the all-or-nothing fallback when the
  page loader fails. `Agent.ProcessSearchResults` is a loop method proved against
  the specification function `Agent.Urls`, whose properties are lemmas.
- **Output-filename probing** (inside `find_potential_clients`): the smallest
  counter `n >= 1` such that `leads/leads_{industry}_{country}_{n}.md` is not an
  existing file. `Agent.NextLeadsFilename` is a `while` loop over a snapshot set
  of existing paths.
- **The `POST /generate-leads` handler** (`generate_leads`): presence-only
  validation, the empty default for `requirements`, and the mapping of the
  orchestrator's success or exception to a 200 or 500 response.
  `App.GenerateLeads` is a total function.

Modules: `Wrappers` (Option), `Json` (the JSON values of search records and
request bodies), `Text` (ASCII lower-casing, `startswith`, substring test,
`str` for non-negative integers, with a digit reader used only to prove that
rendering loses nothing), `Agent` (Agent.py) and `App` (app.py).

Abstractions:
- The page loader is a parameter `loader: seq<string> -> LoadOutcome` that either
  returns documents or fails. The run records the batch handed to it, and
  `None` when it was never called.
- The orchestrator is a parameter `findPotentialClients: Call -> Outcome`:
  filename and table, or an exception message. The dispatch records the call
  made, and `None` when it was not made.
- The filesystem is a `set<string>` of existing paths taken at request time.
- The industry and country of the filename probe are strings: they stand for
  the `str()` renderings that the f-string at Agent.py:118 makes of whatever
  values the handler forwards (a JSON `null` renders as `None`). The path
  separator of `os.path.join` is the POSIX `/`.

Details of the link filter that the model keeps as the code has them:
- The extension test at Agent.py:180-181 finds `.pdf`, `.doc`, `.docx`, `.ppt`
  or `.pptx` anywhere in the lower-cased link, not only at its end
  (`Agent.SubstringNotSuffixTest`: `http://x.docs.io/` is dropped).
- The scheme test at Agent.py:180 is the bare prefix `"http"`
  (`Agent.BarePrefixSchemeTest`: `httpfoo` passes).
- A record whose `"link"` value is not a string makes `url.startswith` raise.
  That happens outside the `try`, so the whole call raises. The model has a
  separate `LinkNotString` result for it.

## Model

| member | source | states |
|---|---|---|
| `Agent.ProcessSearchResults` | Agent.py:172-206 | It raises exactly when some record is a dict whose "link" is not a string. With no selected url the loader is not called and the content is empty. Otherwise the loader gets exactly `Urls(searchResults)`. A failed load gives empty content; a successful one gives the page texts of the documents. |
| `Agent.Urls` | Agent.py:174-183 | The list the loop builds: the "link" strings of the records that are dicts with a string "link" passing the fetch test, in record order; never longer than the input. |
| `Agent.HasBlockedExtension` | Agent.py:180-181 | True when one of ".pdf", ".doc", ".docx", ".ppt", ".pptx" occurs anywhere in the lower-cased link. |
| `Agent.Fetchable` | Agent.py:180-181 | The per-link test: the link starts with "http" and has no blocked extension. |
| `Agent.UrlsAreQualifyingLinksInOrder` | Agent.py:176-183 | The selected urls are the links of the qualifying records, in input order. Their source positions strictly increase, so no record contributes twice. Every qualifying record contributes. |
| `Agent.SelectedIffQualifyingLink` | Agent.py:176-183 | A url is selected if and only if some record is a dict whose "link" is that string and passes the fetch test. |
| `Agent.UrlsAppend` | Agent.py:176-183 | Selecting from the concatenation of two result lists gives the two selections concatenated; records are judged independently. |
| `Agent.RecordWithoutLinkIgnored` | Agent.py:177 | A record that is not a dict, or a dict without "link", changes nothing wherever it stands in the input. |
| `Agent.SelectedUrlsAreFetchable` | Agent.py:180-181 | Every selected url starts with "http". Its lower-cased form contains none of ".pdf", ".doc", ".docx", ".ppt", ".pptx". |
| `Agent.BlockedExtensionsReduce` | Agent.py:180-181 | The five-extension test is equivalent to testing only ".pdf", ".doc" and ".ppt". |
| `Agent.DocumentLinkRejected` | Agent.py:180-181 | A link whose lower-cased form ends in a blocked extension, in any letter case, is never fetched. |
| `Agent.SubstringNotSuffixTest` | Agent.py:181 | The extension test is a substring test: `http://x.docs.io/` is rejected. |
| `Agent.BarePrefixSchemeTest` | Agent.py:180 | The scheme test is a bare prefix test: `httpfoo` is accepted and `ftp://example.com/` rejected. |
| `Agent.PageContents` | Agent.py:203 | The content has one entry per loaded document, in order: the document's page text. |
| `Agent.NextLeadsFilename` | Agent.py:117-124 | The counter is at least 1 and its path is not an existing file. Every counter from 1 below it names an existing file, so it is the smallest unused one. It is at most the number of existing files plus one. The filename is the path built from it. |
| `Agent.LeadsPath` | Agent.py:118-124 | The probed path `leads/leads_{industry}_{country}_{counter}.md`: it starts with `leads/leads_`, the industry, `_`, the country and `_`, and ends with `.md`. |
| `Agent.CounterOfLeadsPath` | Agent.py:118-124 | The counter can be read back from the path `leads/leads_{industry}_{country}_{counter}.md`. |
| `Agent.LeadsPathInjective` | Agent.py:118-124 | Different counters give different paths for the same industry and country. |
| `Agent.SmallestUnusedUnique` | Agent.py:119-123 | The probe's postcondition determines its result: only one counter is the smallest unused one. |
| `Agent.RepeatedRunsIncrease` | Agent.py:119-124 | A run adds its file to the existing set. The next run for the same industry and country then picks a strictly larger counter and a different path, so nothing is overwritten. |
| `Text.Lower` | Agent.py:181 | `url.lower()` on ASCII: the same length, each letter 'A'..'Z' replaced by the lower-case letter at the same place in the alphabet, every other character kept in place. |
| `Text.Decimal` | Agent.py:121 | `str(counter)` is a non-empty string of decimal digits with no leading zero: one digit below 10, and a first digit other than '0' whenever there are two or more. |
| `Text.ParseDecimalOfDecimal` | Agent.py:121 | Reading back the decimal rendering of a number gives the number. |
| `Text.DecimalInjective` | Agent.py:121 | Different numbers render as different strings. |
| `App.GenerateLeads` | app.py:12-42 | For a body that parsed as a JSON object or `null`: the status is 400 if and only if the body is `null`, or it lacks "industry" or lacks "country". Only then is the orchestrator not called, and the body is just the fixed error message. Otherwise industry and country are forwarded unchanged, and requirements are passed through or default to "". Success gives 200 with success true and the filename and table copied. An exception gives 500 with its message as "error" and success false, and no other field. |
| `App.StatusCodes` | app.py:18-42 | The status is always 200, 400 or 500. "success" is present exactly when the status is not 400, and "error" exactly when it is not 200. |
| `App.RejectionIgnoresOrchestrator` | app.py:18-21 | A rejected request gets the same response whatever the orchestrator would do. |
| `App.EmptyFieldsAccepted` | app.py:18-25 | An empty-string industry and an empty-string country pass validation, and both are forwarded unchanged. |

## Left out

- LLM calls (the three prompted tasks and their executors): foreign and nondeterministic. The whole orchestrator appears in `App` only as an abstract outcome.
- Prompt text and the current year: free text for the LLM, with nothing to state about it.
- The search tool and the guard on its `results` attribute: these depend on a third-party object. The search records are an input.
- The join of the fetched pages into one context string: it only feeds LLM prompt text.
- The page loader's network access, request headers and rate limit of two requests per second: I/O. Only "returns documents or fails" is kept.
- Directory creation, writing the file, and the check-then-create race between concurrent requests: I/O and concurrency. The probe works on a snapshot set of paths, and paths are compared as strings, without path normalisation.
- Console messages (`print`) and the interactive entry point: console I/O.
- `str.lower` outside ASCII: only 'A'..'Z' are lower-cased.
- HTTP routing, JSON parsing, the HTML page, CORS and the server start: framework plumbing.
- App.GenerateLeads: a missing body, a non-JSON Content-Type or malformed JSON is not modelled. There `request.get_json()` raises inside the `try`, and the catch-all answers 500 with the exception text.
- App.GenerateLeads: the body is modelled as a JSON object or `null`. A body that parses to a list, string, number or boolean is not modelled; Python tests `in` on it differently, or raises inside the `try`, which gives a 500.
- The path from a raise in `process_search_results` through `find_potential_clients` to the 500 response is not modelled as one chain. `ProcessSearchResults` models the raise, and `App` covers every orchestrator failure as an abstract outcome.
