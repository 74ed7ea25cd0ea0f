# Agora CLI request construction, in Dafny

This project models the request-construction layer of the Agora methods-repository
command-line client (`src/scripts/agora.py`). The client turns command-line values,
file contents and an editor buffer into one HTTPS request to the Agora service:

- a `push` is a POST of a six-field entity, expecting 201;
- a `pull` is a GET of `endpoint/namespace/name/snapshotId`, expecting 200;
- a `list` is a GET of `endpoint?query`, expecting 200.

The model proves what those requests look like and when a command fails before
any request exists.

Modules:

- `Wrappers` (`wrappers.dfy`): `Option` and `Result`.
- `PyText` (`pytext.dfy`): the Python 2 built-ins the CLI relies on. These are `str.strip`,
  `str.rstrip('&')`, `str.rfind`, `os.path.basename`, `os.path.splitext` and `str(int)`.
  The module also holds their inverses, which state the round trips: `Split`/`Join` and
  `ParseInt`.
- `Agora` (`agora.dfy`): endpoint selection, the push defaults, synopsis acceptance,
  the request shapes of `entity_post`, `entity_get` and `entity_list`, and the outcome
  of the status check in `httpRequest`. It also has `push` and `pull` composed up to
  the request they send.
- `AgoraList` (`agora_list.dfy`): `list_entities`. It builds its query string through
  repeated reassignment in three loops, so it is modelled as methods with loop
  invariants. They are proved against `QueryString(QueryPairs(args, order))`.
  Lemmas about that function give the layout of the query, which filters appear,
  order independence, and a parse-back round trip.

The environment is passed in as parameters: the login name, file contents, the
edited buffer, the HTTP response, and the iteration order of a Python dict.

Behaviour that follows the code where a plain reading might expect otherwise:

- `Content-type: application/json` is sent on every request, including bodiless GETs
  (agora.py:97).
- `--auth` is optional (agora.py:172). Without it, the Cookie header carries Python's
  `None`, modelled as `Headers(None)`.
- Only the first line of the editor buffer is used. A line starting with `#` is not
  skipped, although the comment at agora.py:76 says it is. The buffer starts with a
  newline, so saving the template untouched gives the empty synopsis, and that is
  accepted (`UneditedTemplateGivesEmptySynopsis`).
- A synopsis of exactly 80 characters is accepted. The test is `> 80`, despite the
  "< 80" in the message.
- An empty editor buffer makes `lines[0]` raise IndexError. The model returns
  `EmptyEditorBuffer`.
- Scalar list filters come from filtering the whole argparse Namespace. Falsy values
  (None, "", 0) are dropped. The documentation filter is sent as `docs=`, not
  `documentation=`.
- A non-zero `--snapshotId` in `list` is an int. `queryString + key + "=" + value`
  then raises TypeError, so the model returns `NotConcatenable("snapshotId")`. A zero
  snapshot id is falsy and silently dropped.
- With no filters, the query string is `?`, not empty.
- `rstrip("&")` removes every trailing `&`, including one that ends the last value
  (`TrailingAmpersandOfValueIsLost`). Nothing is URL-encoded.
- Scalar pairs follow Python 2's unspecified dict order, not the order in which the
  filters were given.

## Model

| member | source | states |
|---|---|---|
| `Agora.GetEndpoint` | src/scripts/agora.py:40-46 | "/configurations" exactly when the configurations flag is set; "/methods" exactly when only methods is set; `NoEndpoint` exactly when neither is set |
| `Agora.EndpointIsOneSegment` | src/scripts/agora.py:40-46 | every endpoint is one '/' followed by a single segment with no '/' |
| `Agora.PushNamespace` | src/scripts/agora.py:48-52 | a non-empty given namespace is used verbatim; otherwise the login name |
| `Agora.PushName` | src/scripts/agora.py:54-59 | a non-empty given name is used verbatim; otherwise a prefix of the payload file's base name with no '/', from which either nothing or a final '.'-extension holding no other '.' is cut; something is cut exactly when the base name has a '.' after a character that is not '.' |
| `Agora.PushNameDropsDirectoryAndExtension` | src/scripts/agora.py:54-59 | "workflows/hello.wdl" defaults to the name "hello" |
| `Agora.PushNameDropsOnlyFinalExtension` | src/scripts/agora.py:54-59 | an empty --name counts as absent, and "a.tar.gz" defaults to "a.tar" |
| `Agora.PushNameKeepsDotFile` | src/scripts/agora.py:54-59 | "dir/.bashrc" defaults to ".bashrc": a leading-dot name has no extension |
| `Agora.PushDocumentation` | src/scripts/agora.py:61-72 | with a documentation file, its stripped contents; without one, "" |
| `Agora.FirstLine` | src/scripts/agora.py:86-89 | `readlines()[0]`: a non-empty prefix of the buffer whose only newline, if any, is its last character, running to the first newline or to the end; none exactly for an empty buffer |
| `Agora.AcceptSynopsis` | src/scripts/agora.py:89-92 | fails with `EmptyEditorBuffer` exactly on an empty buffer; otherwise succeeds exactly when the stripped first line has at most 80 characters, returning that stripped line |
| `Agora.AcceptedSynopsisIsOneTrimmedLine` | src/scripts/agora.py:89-92 | an accepted synopsis has at most 80 characters, no newline and no surrounding whitespace |
| `Agora.SynopsisFirstLineDecides` | src/scripts/agora.py:89-92 | for a trimmed one-line first line, whatever follows it, the result is `Success(line)` when the line has at most 80 characters (80 passes) and `SynopsisTooLong` otherwise |
| `Agora.UneditedTemplateGivesEmptySynopsis` | src/scripts/agora.py:80-92 | saving the editor template unchanged yields the empty synopsis, which is accepted |
| `Agora.Headers` | src/scripts/agora.py:97 | the headers are exactly Cookie = the auth token (None when --auth is absent) and Content-type = application/json |
| `Agora.EntityPost` | src/scripts/agora.py:116-120 | a POST to the bare endpoint expecting 201, with the auth headers, whose body has exactly the keys namespace, name, synopsis, documentation, entityType and payload, each mapped to its argument |
| `Agora.SnapshotPath` | src/scripts/agora.py:124 | the fetch path starts with the endpoint and a '/', and ends with a '/' and str(snapshotId) |
| `Agora.EntityGet` | src/scripts/agora.py:123-125 | a bodiless GET expecting 200, with the auth headers, of the snapshot path endpoint/namespace/name/str(snapshotId) |
| `Agora.SnapshotPathIsJoin` | src/scripts/agora.py:124 | the fetch path is "", the endpoint's segment, the namespace, the name and the id joined with '/' |
| `Agora.SnapshotPathRoundTrip` | src/scripts/agora.py:124 | when namespace and name hold no '/', splitting the fetch path on '/' gives back "", the endpoint segment, the namespace, the name and the decimal id, and that id parses back to snapshotId |
| `Agora.EntityList` | src/scripts/agora.py:128-130 | a bodiless GET expecting 200, with the auth headers, whose URL is the endpoint followed by the query string |
| `Agora.Send` | src/scripts/agora.py:95-113 | succeeds, with the response body, exactly when the status equals the expected one; otherwise fails carrying the URL, request body, status, reason and response body |
| `Agora.PushRequest` | src/scripts/agora.py:133-140 | no endpoint flag fails with `NoEndpoint` before anything else; with an endpoint, push fails exactly when the synopsis is rejected, and with the same error |
| `Agora.PushRequestContents` | src/scripts/agora.py:133-140 | a successful push is a POST expecting 201 to the chosen endpoint with the auth headers; its body has exactly six keys: the defaulted namespace, the default name of `get_push_name`, the accepted synopsis, the stripped documentation, the stripped payload and the entity type's name |
| `Agora.PullRequest` | src/scripts/agora.py:145-147 | pull fails exactly when no endpoint flag is set; otherwise it is a bodiless GET expecting 200, with the auth headers, of the snapshot path under the chosen endpoint |
| `Agora.PullExample` | src/scripts/agora.py:145-147 | `pull --namespace=broad --name=hello --snapshotId=3` on methods is `GET /methods/broad/hello/3` with the auth cookie and no body |
| `PyText.Strip` | src/scripts/agora.py:89 | the result has no whitespace at either end and is a slice of the input with only whitespace before and after it |
| `PyText.StripDropsFinalNewline` | src/scripts/agora.py:89 | stripping a line whose only newline is its last character leaves no newline |
| `PyText.RStrip` | src/scripts/agora.py:164 | the result is a prefix of the input not ending in '&', and everything removed is '&' |
| `PyText.Basename` | src/scripts/agora.py:58 | the result holds no '/', ends the path, and is the whole path or preceded by '/' |
| `PyText.SplitExt` | src/scripts/agora.py:59 | root + extension is the input; the extension is empty or a '.' followed by neither '.' nor '/'; it is non-empty exactly when, after the last '/', some '.' follows a character that is not '.' |
| `PyText.SplitExtOfName` | src/scripts/agora.py:58-59 | on a base name, an extension is split off exactly when a '.' follows a character that is not '.' |
| `PyText.Str` | src/scripts/agora.py:124 | str(int) is non-empty decimal digits with a leading '-' exactly for negative numbers, and has no leading zero (only 0 itself starts with '0') |
| `PyText.StrRoundTrip` | src/scripts/agora.py:124 | parsing str(n) gives n back |
| `AgoraList.Truthy` | src/scripts/agora.py:161 | a Namespace value is falsy exactly when it is None, "", 0, False or [] |
| `AgoraList.TruthyOfOptText` | src/scripts/agora.py:161 | a string argument is truthy in the list filter exactly when it is given for the push defaults: one notion of truthiness |
| `AgoraList.Namespace` | src/scripts/agora.py:160 | the Namespace dict holds every reserved key; each non-reserved value is one of the eight filter arguments; snapshotId and docs hold their own arguments |
| `AgoraList.NamespaceKeys` | src/scripts/agora.py:172-206 | the Namespace keys are exactly the six reserved destinations and the eight filter destinations |
| `AgoraList.ReservedEntriesStored` | src/scripts/agora.py:172-197 | auth, configurations, methods, func, includedFields and excludedFields hold their own arguments |
| `AgoraList.FilterEntriesStored` | src/scripts/agora.py:198-202 | namespace, name, synopsis and docs are unreserved keys holding their own arguments |
| `AgoraList.MoreFilterEntriesStored` | src/scripts/agora.py:203-205 | owner, payload and entityType are unreserved keys holding their own arguments |
| `AgoraList.Trimmed` | src/scripts/agora.py:161 | a key survives exactly when its value is truthy and it is not one of func, auth, methods, configurations, includedFields and excludedFields; its value is unchanged |
| `AgoraList.AppendedPairs` | src/scripts/agora.py:153-163 | one includedField pair per included field in list order comes first, then one excludedField pair per excluded field, then one pair per scalar key along the iteration order, with its string value |
| `AgoraList.QueryString` | src/scripts/agora.py:164 | `("?" + appended).rstrip("&")`: a prefix of "?" followed by the rendered pairs, starting with '?', not ending in '&', with only '&' cut off |
| `AgoraList.EmptyQueryString` | src/scripts/agora.py:152-164 | with no pairs the query string is exactly "?" |
| `AgoraList.AppendFieldPairs` | src/scripts/agora.py:153-158 | the loop appends `key=f&` for every field, in list order |
| `AgoraList.AppendScalarPairs` | src/scripts/agora.py:162-163 | the loop appends `key=value&` for every key along the iteration order, and fails with `NotConcatenable` of the first key along the order whose value is not a string, every earlier value being a string |
| `AgoraList.BuildQueryString` | src/scripts/agora.py:152-164 | from "?" to `rstrip("&")`: succeeds exactly when every scalar value is a string, with the query string of included, then excluded, then scalar pairs; otherwise fails at the first non-string value along the order |
| `AgoraList.ListQueryString` | src/scripts/agora.py:150-164 | the query string of `list_entities` for any dict iteration order; fails with `NotConcatenable` of the first key along the order whose value is not a string |
| `AgoraList.ListEntities` | src/scripts/agora.py:150-165 | no endpoint flag fails with `NoEndpoint` first; otherwise list succeeds exactly when all scalar values are strings, with a GET of the endpoint followed by the query string, and fails at the first non-string value otherwise |
| `AgoraList.ScalarPairsMembership` | src/scripts/agora.py:161-163 | (key, value) is a scalar pair exactly when key is not reserved and its argument is the non-empty string value |
| `AgoraList.ScalarKeysDistinctAndUnreserved` | src/scripts/agora.py:161-163 | no scalar key appears twice, and no reserved key appears |
| `AgoraList.DocumentationFilterKey` | src/scripts/agora.py:202 | a given documentation filter is sent under "docs"; an absent one is not sent; "documentation" is never a key |
| `AgoraList.FilterSent` | src/scripts/agora.py:161-163 | a string argument stored under an unreserved key is sent as that key with its value when non-empty, and that key is not sent otherwise |
| `AgoraList.StringFiltersSentUnderOwnKeys` | src/scripts/agora.py:198-205 | each of --namespace, --name, --synopsis, --documentation, --owner, --payload and --entityType is sent as its destination name with the given value exactly when non-empty: `--owner bob` sends `owner=bob` |
| `AgoraList.ListFailsOnlyOnSnapshotId` | src/scripts/agora.py:163 | building the query fails exactly when a non-zero snapshotId is given |
| `AgoraList.ScalarPairsOrderIndependent` | src/scripts/agora.py:161-162 | any two dict iteration orders give the same scalar pairs, as many of them |
| `AgoraList.NothingTrimmedWithoutFilters` | src/scripts/agora.py:161 | with every filter argument falsy, no scalar argument survives |
| `AgoraList.NoFiltersGivesBareQuery` | src/scripts/agora.py:152-164 | with no field lists and every filter falsy, the query string is exactly "?" |
| `AgoraList.QueryStringIsJoin` | src/scripts/agora.py:164 | for a non-empty list of pairs whose keys hold no '&' or '=' and whose values hold no '&', `rstrip("&")` removes exactly the final separator, leaving "?" followed by the pieces joined with '&' |
| `AgoraList.QueryRoundTrip` | src/scripts/agora.py:152-164 | when keys hold no '&' or '=' and values hold no '&', reading the query string back gives exactly its pairs, in order |
| `AgoraList.TrailingAmpersandOfValueIsLost` | src/scripts/agora.py:164 | a last value "a&" is sent as "?name=a": rstrip removes the value's own '&' too |

## Left out

- HTTP transport (agora.py:95-113): the TLS connection to the fixed host, sending, and reading the response are I/O. `json.loads` of the body is a library call. `Send` models only the status check and returns the body text.
- `json.dumps` of the create body (agora.py:119): a library call. The body is a map from field name to value.
- The text that `fail` prints, and `sys.exit` (agora.py:36-38): failures are `Error` values that carry the same facts. The message wording is not reproduced.
- The editor session in `get_user_synopsis` (agora.py:79-88): the EDITOR lookup, the temporary file and the subprocess are environment and I/O. The edited buffer is a parameter.
- File reading in `read_entire_file` and `get_push_documentation` (agora.py:61-72): disk I/O. File contents are parameters. The `print docsFile` side effect is left out.
- `getpass.getuser()` (agora.py:52): environment. The login name is a parameter.
- Argument parsing and `__main__` dispatch (agora.py:167-210): CLI plumbing. Parsed arguments are the records `PushArgs`, `PullArgs` and `ListArgs`. Optional flags, `--auth` among them, are `Option` values. The model takes what argparse guarantees as given: pull's required namespace, name and snapshotId (agora.py:189-191), `choices` and `type=int`. `GetEndpoint` still handles all four endpoint-flag combinations, although the mutually exclusive group (agora.py:173) admits exactly one.
- Printing the response (agora.py:141-142, 147, 165): output only.
- Python 2 byte strings: characters stand for bytes. A non-ASCII synopsis is measured in characters, not in its encoded bytes.
- Dict iteration order (agora.py:161-162): unspecified in Python 2. It is a parameter, and the list properties hold for every order.
- `PyText.SplitExt`: only POSIX paths (separator '/', no alternative separator) are modelled.
- build/updatehash.rb and test.rb: GitHub REST calls made through curl subprocesses, with no logic of their own. They are not part of this model.
