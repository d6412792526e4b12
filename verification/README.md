# Credential probing and driver fallback of the CloudShell auto-discovery tool

This project models, in Dafny, the two pieces of decision logic at the heart of
the auto-discovery tool:

- **The discovery session's credential handling** (`autodiscovery/cli_sessions/base.py`).
  `prepare_credentials_action_map` turns the vendor's ordered candidate list into
  a one-shot prompt action for one role (user, password or enable password).
  `_check_enable_password` decides whether privileged ("enable") mode must be
  entered and, if so, drives the `enable` dialogue with that action.
- **The networking handler** (`autodiscovery/handlers/networking.py`).
  `discover` classifies a device by OS and model type and copies the probed
  credentials into the report entry. `upload` registers the device with the
  second-generation driver first, falls back to the first-generation driver,
  and notes a "not installed" comment when neither yields a resource.

## Design

- `common.dfy` (`Common`): `Option`, `Result` (an `Err` carries the message of the
  exception the source raises), and `Truthy`, which is Python truthiness of an
  optional string (unset and `""` are both false).
- `credential_cursor.dfy` (`CredentialCursor`): the closure over a lazy generator
  becomes an explicit `Cursor` with a candidate list, a role and a position.
  `Eligible` is the reference definition of what the generator yields: the truthy
  role fields, in candidate order. `Step`, `Invoke` and `AfterCalls` (the
  cursor after k calls) are stated against it through `Remaining(cursor)`. Each
  call of `Prepare` builds a new value, so two actions never share state.
- `enable_mode.dfy` (`EnableMode`): the terminal is a `Device` oracle. For an
  expect call and the lines answered so far, it returns a password prompt, the
  expected prompt, or a failure. Regex search is the parameter
  `matches: (Search, string) -> bool`, where `Search` records the pattern and its
  flags. The dialogue always ends, because each password prompt either uses up
  a candidate or makes the action raise.
- `networking.dfy` (`Networking`): the vendor catalog, the credential probe, the
  folder-path setting and the registrar are all passed in. `discover` records
  its lookups and `upload` records its registrar calls, so the number and order
  of calls can be stated. `Tiers` plus `Fallback` give an independent reference
  for the two-tier chain, and `UploadIsFallbackChain` proves that `Upload`
  follows it.

Points where the model follows the code's exact behaviour:

- The search for the enable prompt in the last output uses DOTALL and is
  case-sensitive (`Search(prompt, true, false)`). It is not case-insensitive.
  The password action's pattern is the literal class `[Pp]assword:`.
- When a second-generation block exists, the "not installed" comment always
  names the second-generation driver. This holds even when the first-generation
  driver was tried last (`Networking.CommentNamesSecondGenDriver`). It does not
  name the last driver attempted.
- If the family record is missing, or has neither block, the code crashes. The
  model therefore makes "the model type has a family record with at least one
  block" a precondition of `Upload` (`Networking.Uploadable`).

## Model

| member | source | states |
|---|---|---|
| CredentialCursor.Set | autodiscovery/cli_sessions/base.py:95 | writing a role's value into the credentials changes that field only |
| CredentialCursor.EligibleAppend | autodiscovery/cli_sessions/base.py:80-84 | the candidate filter keeps list order: filtering a concatenation gives the concatenation of the filtered parts |
| CredentialCursor.EligibleMembers | autodiscovery/cli_sessions/base.py:80-84 | each yielded value is non-empty and is the role field of some candidate; if no candidate has a truthy field, nothing is yielded |
| CredentialCursor.Prepare | autodiscovery/cli_sessions/base.py:69-84 | a newly prepared action starts at the first candidate and will yield exactly the eligible values of the whole list |
| CredentialCursor.Step | autodiscovery/cli_sessions/base.py:80-88 | advancing the generator yields the first remaining eligible value and leaves the rest; it is exhausted exactly when none remain |
| CredentialCursor.Invoke | autodiscovery/cli_sessions/base.py:86-96 | one action call sends the next eligible value and stores it in the role's field, leaving other fields alone; it raises with the session-type message exactly when no value remains |
| CredentialCursor.RemainingIsEligibleSuffix | autodiscovery/cli_sessions/base.py:80-84 | what a cursor still has to yield is the candidate filter applied to the candidates it has not yet visited |
| CredentialCursor.AfterCalls | autodiscovery/cli_sessions/base.py:86-93 | after k calls the cursor has exactly the eligible values from position k on left; calls past the end use nothing up |
| CredentialCursor.FreshActionFollowsCandidateOrder | autodiscovery/cli_sessions/base.py:80-98 | for a fresh action, call k (counting from 0) sends the k-th eligible value of the candidate list and stores it in the role's field, leaving the other fields alone; once those values are used up, every call raises with the exhaustion message |
| CredentialCursor.ExhaustedMessageNamesSession | autodiscovery/cli_sessions/base.py:89-93 | the exhaustion message contains the session type verbatim |
| EnableMode.RunExpect | autodiscovery/cli_sessions/base.py:52-59 | the lines the password action sends during the enable call are a prefix of the remaining candidates, in order; the enable field holds the last line sent, and no other field changes |
| EnableMode.RunExpectFollowsDevice | autodiscovery/cli_sessions/base.py:52-64 | the expect call follows the device's replies: every line sent answers a password prompt, the call succeeds exactly when the device then shows the expected prompt, so a timeout or failure after any number of answers ends it as a failure, and it ends on a password prompt only after every candidate was used up |
| EnableMode.EnterEnableMode | autodiscovery/cli_sessions/base.py:51-64 | one `enable` expect call is made, awaiting the prompt with `[Pp]assword:` bound to the enable-password role and loop detection off; each line answers a password prompt, in candidate order; a warning is logged and the enable password cleared exactly when the device never shows the expected prompt, after any number of answers; otherwise the enable password is the last line sent; user and password are kept |
| EnableMode.CheckEnablePassword | autodiscovery/cli_sessions/base.py:42-66 | no enable prompt, or a last output that already matches it (DOTALL, case-sensitive): nothing is sent and the credentials are unchanged; otherwise the `enable` dialogue runs, with the warning and the cleared enable password exactly when the device does not show the expected prompt after the last line sent |
| EnableMode.AlwaysPromptingDrainsCursor | autodiscovery/cli_sessions/base.py:43-59 | a device that keeps asking for the password gets every remaining candidate in order, and the call then fails |
| EnableMode.EnableAllRejected | autodiscovery/cli_sessions/base.py:60-66 | if every enable candidate is rejected, all are tried in order and the result has no enable password; the user and password are kept, and the failure only produces a warning |
| EnableMode.AcceptingDeviceStopsAtSecret | autodiscovery/cli_sessions/base.py:52-59 | a device that accepts exactly one password ends the dialogue as soon as that password is first sent |
| EnableMode.EnableFindsPassword | autodiscovery/cli_sessions/base.py:42-66 | candidates are tried in order up to the first one the device accepts, and that value is returned as the enable password |
| EnableMode.EnableScenario | autodiscovery/cli_sessions/base.py:42-66 | worked example: the second candidate's enable password is found after one prompt |
| EnableMode.EnableLateTimeout | autodiscovery/cli_sessions/base.py:51-64 | worked example: a device that asks once, gets a wrong enable password and then times out leaves no enable password and only a warning |
| Networking.Discover | autodiscovery/handlers/networking.py:19-40 | no device OS: fails with "Unable to determine device OS" and does no model-type lookup; no model type: fails with "Unable to determine device model type"; success sets the model type and folder path, and either copies all three credentials or sets the fixed comment while leaving them untouched |
| Networking.DiscoverIsIdempotent | autodiscovery/handlers/networking.py:19-40 | rediscovering an already discovered entry with the same collaborators gives the same entry |
| Networking.Upload | autodiscovery/handlers/networking.py:50-94 | the second-gen call comes first and carries the prefix "<model_name>."; a first-gen call, with no prefix, happens exactly when second-gen returned nothing and first-gen exists; with only first-gen there is one unprefixed first-gen call; on a falsy final name the comment is "Shell <driver> is not installed", naming the second-gen driver whenever that block exists; otherwise the entry is unchanged |
| Networking.Fallback | autodiscovery/handlers/networking.py:64-91 | a fallback chain makes calls in tier order, moves on only after a falsy name, stops at the first truthy name, and returns the last call's name |
| Networking.UploadIsFallbackChain | autodiscovery/handlers/networking.py:64-94 | upload makes exactly the calls of the fallback chain over (second-gen prefixed, first-gen unprefixed), and the entry gets the "not installed" comment exactly when the chain ends with no truthy name, and is otherwise unchanged |
| Networking.CommentNamesSecondGenDriver | autodiscovery/handlers/networking.py:64-94 | when both tiers exist and both decline, the first-gen driver is tried last, but the comment names the second-gen driver |
| Networking.UploadSendsDiscoveredCredentials | autodiscovery/handlers/networking.py:35-56 | every registration of a discovered entry carries the credentials the probe found, with SNMP disabled |

## Left out

- `check_credentials`: it is abstract in the base session, and the login dialogues of the vendor sessions are not part of this model. No property about the number of login attempts is stated.
- The expect session transport (`hardware_expect`, `send_line`, timeouts): it is the `Device` oracle. A failing `send_line` is not modelled. The order in which the action writes the field and sends the line can only be seen through such a failure, so the model does not observe that order.
- The regular-expression engine: it is the `matches` parameter. Only the pattern and its flags are fixed by the model.
- CheckEnablePassword: never fails. In the code an invalid `enable_prompt` pattern makes the search before the `try` raise `re.error` out of `_check_enable_password`; regular-expression syntax is outside this model, because `matches` is a total predicate.
- Logging: the only log call modelled is the warning in the enable step, as the `warned` flag.
- `_get_cli_credentials`, `_upload_resource`, `get_folder_path_by_vendor`, the CloudShell API session and `CloudShellAPIError`: these handler-base collaborators are not part of this model. They appear as the `cliCredentials`, `register` and `folderPath` parameters. How `_upload_resource` applies the attribute prefix is not modelled.
- The vendor catalog's pattern tables (`get_device_os`, `get_device_model_type`): they are the `Vendor.deviceOs` and `DeviceOs.modelType` functions.
- The values of the `ResourceModelsAttributes` constants: the attributes are the named fields of `Attributes`.
- The report entry's `with`-statement behaviour (status FAILED, comment set to the message): `autodiscovery/reports/base.py` is not part of this model.
- Non-string field values and the `creds_key=""` default: `Role` lists only the three credential fields, and fields are optional strings.
- Concurrency across devices: each device's probe is a pure function of its own inputs.
