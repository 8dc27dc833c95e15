# Witsy core, modelled in Dafny

A model of the parts of Witsy (an Electron desktop client for large language
models) that keep its data consistent, with proofs of what they promise.

- **Document base** (`src/rag/docbase.ts`, module `DocBase`). This is the
  retrieval-augmented-generation store. It adds files, web pages and whole
  folders to a vector database and deletes them again. It does so in
  transactions that commit every 5 additions or every 10 deletions.
  - The loader, splitter, embedder and file lister are collaborators, given as
    an `Env`.
  - The vector database and the progress callback are observed as a trace of
    events in call order: `Begin`, `Commit`, `Insert`, `Delete` and `Notify`.
- **Settings** (`src/main/config.ts`, module `Config`, over the JSON tree of
  module `Json`). This covers:
  - the recursive merge of the user's settings over the defaults;
  - two migrations of legacy layouts;
  - the removal of base URLs that merely repeat the defaults.
- **MCP servers** (`src/main/mcp.ts`, module `Mcp`). This covers:
  - listing, deleting and editing the configured Model Context Protocol
    servers, both the user's own and those installed from a registry;
  - the `name___uuid` tool names that route a tool call to its server;
  - the conversion of a tool to an OpenAI function description.
- **History store** (`src/services/store.ts`, module `Store`, over the records
  of module `Chats`). This covers:
  - merging a history file saved by another window into the chats in memory;
  - the removal of attachment contents when the history is saved;
  - the choice of a ready engine at start-up.
- **Assistant** (`src/services/assistant.js`, module `Assistant`). This covers:
  - starting a chat;
  - the messages a prompt adds;
  - when a title is requested, and how the model's reply is cleaned up.

Module `JsString` gives the ECMAScript string built-ins the code relies on:
`trim`, `split` and `join` on one character, `replace` with a string pattern,
and `slice`. Module `Wrappers` gives `Option` and `Result`, and module `Seqs` gives
`RemoveAt`, which removes one entry from a list. Thrown exceptions
become `Failure` values, and `await` steps become sequential function
composition.

## Model

| member | source | states |
|---|---|---|
| DocBase.AddDocument | src/rag/docbase.ts:74-146 | addDocument succeeds exactly when the type is parseable, the text loads, is non-empty, is not just a page-break marker after trimming and fits the size limit; each early rejection has its own error; on success the chunks are inserted in order with the source's metadata, no transaction is begun or committed, nothing is deleted, and the callback, when asked for, runs once at the end |
| DocBase.AddDocumentRejections | src/rag/docbase.ts:92-104 | loaded text that trims to a page-break marker is rejected as an empty PDF; otherwise text longer than maxDocumentSizeMB·1024·1024 is rejected as too large |
| DocBase.WhitespaceTextIsAccepted | src/rag/docbase.ts:86-90 | the emptiness check rejects only the empty string: whitespace-only text is ingested |
| DocBase.PageBreakIsMarker | src/rag/docbase.ts:92-97 | the page-break check accepts exactly one or more dashes, "Page (", one or more digits, ") Break", one or more dashes, and nothing else |
| DocBase.MarkerIsPageBreak | src/rag/docbase.ts:92-97 | every such marker is recognised, whatever the numbers of dashes and digits |
| DocBase.PageBreakToMarker | src/rag/docbase.ts:92-97 | a string the check accepts splits at the end of its leading dashes and of its digits into exactly such a marker |
| DocBase.TitleCapture | src/rag/docbase.ts:106-112 | the `<title>(.*?)</title>` search (ASCII case-insensitive, `.` not crossing line terminators) finds nothing exactly when no match exists; otherwise it captures the leftmost match up to the nearest closing tag |
| DocBase.ResolveTitle | src/rag/docbase.ts:106-112 | only web pages take a title from the text; a non-empty capture becomes the trimmed title and an empty or missing capture keeps the old one |
| DocBase.TitleOfWrapped | src/rag/docbase.ts:106-112 | a page `<title>c</title>`, with c one line without '<', gets the title trim(c) |
| DocBase.FileAddKeepsSource | src/rag/docbase.ts:163-164 | ingesting a folder's file never changes its source record: only web pages get titles |
| DocBase.IngestFacts | src/rag/docbase.ts:157-177 | the folder loop keeps exactly the ingestible files, in listing order, as plain file sources; it commits, calls back and reopens once per 5 successes; it inserts the chunks of those files only and deletes nothing |
| DocBase.AddFolder | src/rag/docbase.ts:148-183 | addFolder appends the ingestible files as new items after the existing ones; it opens with Begin and ends with Commit then the callback; it makes ⌊n/5⌋+1 commits and as many callbacks for n added files, and inserts nothing but their chunks |
| DocBase.TwelveFilesThreeCommits | src/rag/docbase.ts:15-16 | twelve ingestible files give three commits (after the 5th, the 10th, and at the end) |
| DocBase.DeleteItemsFacts | src/rag/docbase.ts:204-225 | deleting a folder's items removes every item, issues one delete per item uuid in order, and commits once per 10 confirmed removals |
| DocBase.DeleteDoc | src/rag/docbase.ts:185-234 | delete fails with "not found" exactly when no document has the id; otherwise that document is spliced out, the others keep their order, and the removed record is returned with its items emptied |
| DocBase.DeleteFolder | src/rag/docbase.ts:193-232 | deleting a folder of k items deletes the item uuids, not the folder's own, with ⌊k/10⌋+1 commits |
| DocBase.DeleteLeaf | src/rag/docbase.ts:193-232 | deleting a file or page is Begin, one delete of its uuid, Commit, then the callback |
| DocBase.DeleteKeepsUnique | src/rag/docbase.ts:185-228 | deletion keeps the document ids distinct and leaves none with the deleted id |
| DocBase.Add | src/rag/docbase.ts:40-72 | add returns the uuid it was given whenever it succeeds, and a folder add always succeeds |
| DocBase.AddNewLeaf | src/rag/docbase.ts:58-64 | a new file or page is registered only after addDocument succeeds; a failed one leaves the list and the store untouched |
| DocBase.AddNewFolder | src/rag/docbase.ts:51-57 | a new folder is registered and the callback runs before any file is ingested, so it gets ⌊n/5⌋+2 callbacks |
| DocBase.AddExisting | src/rag/docbase.ts:42-48 | re-adding an existing uuid first runs delete without callback; the old record, emptied of items, is then re-ingested with its old type and origin; a failed re-ingestion leaves it deleted |
| DocBase.AddKeepsUnique | src/rag/docbase.ts:40-72 | add keeps the document ids distinct and, on success, the added source is the last document and the only one with its uuid |
| Config.MergeConfig | src/main/config.ts:30-46 | the merge has every key of either side; a key only in the defaults keeps its default; an override replaces the default unless both are non-array objects, which are merged recursively into the value at that key |
| Config.MergeNothing | src/main/config.ts:30-46 | merging no overrides gives back the defaults |
| Config.MergeSelf | src/main/config.ts:30-46 | merging a tree over itself gives it back |
| Config.MergeTwice | src/main/config.ts:30-46 | applying the same overrides twice is the same as applying them once |
| Config.OverrideWins | src/main/config.ts:34-42 | every non-object value an override sets, at any depth, is the merged value at that path |
| Config.DefaultKept | src/main/config.ts:32-44 | a default is kept wherever the overrides stop: along a path that runs through objects on both sides down to a depth where the overrides have nothing, the merged value is the default at every depth below |
| Config.NestedDefaultKept | src/main/config.ts:36-39 | overriding only `engines.openai.apiKey` keeps the default `engines.openai.baseURL` |
| Config.MigrateEngines | src/main/config.ts:53-62 | legacy top-level `openai`/`ollama` are replaced by an `engines` object holding just those two, and everything else is untouched; without them the settings are unchanged |
| Config.MigrateTavily | src/main/config.ts:64-72 | a missing `plugins` throws; a truthy `plugins.tavily` becomes `plugins.search`, with engine "tavily" exactly when tavily was enabled and the API key carried over, and tavily is removed |
| Config.NullifyEngine | src/main/config.ts:159-169 | reading an engine's base URL throws when `engines` or the engine is missing; the base URL is deleted exactly when it loosely equals '' or equals the default, and nothing else changes |
| Config.NullifyDefaults | src/main/config.ts:159-169 | nullifyDefaults fails exactly when the openai, ollama or sdwebui engine is missing, and changes nothing outside `engines` |
| Config.NullifyDefaultsEffect | src/main/config.ts:159-169 | only the three engines' redundant base URLs are removed, and every other engine is kept |
| Config.NullifyIdempotent | src/main/config.ts:159-169 | a second nullifyDefaults removes nothing more |
| Config.BuildConfig | src/main/config.ts:48-79 | without legacy engines, a successful build has exactly the keys of the merge |
| Config.LegacyEnginesAlwaysFail | src/main/config.ts:54-62 | as written, any settings that trigger the legacy engine migration make buildConfig throw |
| Config.LegacyExample | src/main/config.ts:48-79 | a settings file `{"openai": {"apiKey": "k"}}` makes buildConfig throw |
| Config.MigrateEnginesFixed | src/main/config.ts:54-62 | the corrected migration removes the top-level `openai`/`ollama`, puts each truthy one under `engines`, and keeps every other engine and every other setting |
| Config.BuildConfigFixed | src/main/config.ts:48-79 | a successful corrected build has no legacy `openai` key |
| Config.FixedMigrationLoads | src/main/config.ts:48-79 | with the corrected migration, legacy settings over defaults that have the three engines and a plugins object load, and the legacy openai settings end up under `engines` |
| Config.NullifyKeepsReadable | src/main/config.ts:159-169 | nullifyDefaults never fails on settings whose three engines are present |
| Mcp.GetServers | src/main/mcp.ts:40-57 | the user's servers come first, unchanged; then one stdio server per registry entry in key order, whose uuid is the key with its first '@' removed, whose url is the arguments joined by spaces, and which is disabled exactly when its key is in the disabled list |
| Mcp.ListedArgsRoundTrip | src/main/mcp.ts:51 | a listed url splits back into the entry's arguments when no argument holds a space |
| Mcp.DeleteServer | src/main/mcp.ts:59-94 | deleteServer reports a deletion exactly when a user server has the uuid, or a registry key is the uuid or '@' plus the uuid; user servers take precedence and all of them with the uuid go; otherwise the entry keyed by the uuid is removed, and only when there is none the entry keyed by '@' plus the uuid; when nothing matches, nothing changes |
| Mcp.DeleteListedEntry | src/main/mcp.ts:40-94 | deleting a registry server by the uuid it is listed under removes exactly its entry, for keys with no '@' or only a leading one |
| Mcp.DeleteMissesInnerAt | src/main/mcp.ts:44-79 | a key with an inner '@' ("a@b") is listed as "ab", a uuid deleteServer cannot find |
| Mcp.UpdateFirst | src/main/mcp.ts:158-166 | only the first user server with the edited uuid takes the new type, state, command, url and environment |
| Mcp.DisabledAfter | src/main/mcp.ts:173-182 | after disabling, the id is in the list, which is created when missing; after enabling it is not, and a missing list throws; other ids are unaffected |
| Mcp.EditServer | src/main/mcp.ts:137-203 | editServer throws exactly when enabling a registry server while the disabled list is missing; it reports an edit exactly when the server is new, a user server has its uuid, or a registry key is its registry id; registry keys never change; a new server gets the fresh uuid, also as its registry id, and is appended last to the user's servers |
| Mcp.EditThenList | src/main/mcp.ts:40-57 | after editing a registry server, getServers lists it with the new command, url, environment and state |
| Mcp.EditKeepsDisabledDistinct | src/main/mcp.ts:173-182 | editing never puts an id twice in the disabled list |
| Mcp.UniqueToolName | src/main/mcp.ts:417-419 | the unique name is the tool's name, "___", and the server's uuid |
| Mcp.StripUniqueName | src/main/mcp.ts:407 | replacing the first "___uuid" undoes the unique name when the uuid is non-empty without '_' and the tool name does not contain that suffix |
| Mcp.StraddlingSuffix | src/main/mcp.ts:407 | without the uuid condition the first occurrence can straddle the join: "___a" with uuid "a___" comes back as "a___" |
| Mcp.UuidDetermined | src/main/mcp.ts:417-419 | over uuids without '_', equal unique names carry the same uuid |
| Mcp.CallTool | src/main/mcp.ts:400-415 | callTool fails with "not found" exactly when no client answers to the name; otherwise it calls a client that offers that name |
| Mcp.CallToolReachesOwner | src/main/mcp.ts:400-419 | with distinct uuids without '_', a unique name reaches the server that offered the tool, under the tool's own name |
| Mcp.ConvertProperty | src/main/mcp.ts:429-437 | a parameter keeps its type; its description, or its key when that is empty, is cut to 1024 characters; only arrays get items, defaulting to "string" |
| Mcp.McpToOpenAI | src/main/mcp.ts:421-442 | the conversion throws exactly when the tool has no description or no input properties |
| Mcp.McpToOpenAIFixed | src/main/mcp.ts:421-442 | the function is named with the unique name, its description is at most 1024 characters, its parameters are the tool's in order, and the required list is passed through |
| Mcp.ServerTools | src/main/mcp.ts:387-398 | one server's tool list converts only when every tool does |
| Mcp.ParameterlessToolHidesServer | src/main/mcp.ts:387-398 | as written, one tool without input properties removes every tool of its server from the list |
| Mcp.ServerToolsFixed | src/main/mcp.ts:387-398 | corrected, every tool of a server is offered under its unique name |
| Mcp.FixedAgreesWhenComplete | src/main/mcp.ts:421-442 | the corrected conversion agrees with the written one wherever the latter succeeds |
| Mcp.OfferedToolsAreCallable | src/main/mcp.ts:387-419 | every tool offered to the model, when called by its function name, reaches its own server under its own name |
| Chats.FindChat | src/services/store.ts:135 | the first chat with the uuid, or none exactly when no chat has it |
| Chats.DropChat | src/services/store.ts:138 | the filter keeps exactly the chats with another uuid |
| Chats.DropChatAppend | src/services/store.ts:138 | the filter keeps order: filtering a concatenation is concatenating the filtered parts |
| Chats.DropChatSingle | src/services/store.ts:138 | a single chat is kept exactly when its uuid differs, so with DropChatAppend the filter keeps order and duplicates |
| Chats.DropChatUuids | src/services/store.ts:138 | after the filter the uuid is gone and every other uuid remains |
| Store.Apply | src/services/store.ts:134-147 | one saved chat: an unknown one is appended, a known deleted one filtered out, a known one patched unless already skipped; chats with other uuids stay |
| Store.PatchLoop | src/services/store.ts:128-153 | once the flag is set it stays set, and chats whose uuid is not in the file stay in memory |
| Store.PatchHistory | src/services/store.ts:128-160 | what is saved is the merged chats with attachments stripped; chats the file does not mention stay, in their order, when patching keeps uuids; a chat the file adds, or deletes while known, always makes it save; with patching that reports every change, nothing is saved exactly when every saved chat is known, not deleted and unchanged by its patch, and then the chats are as they were |
| Store.PatchHistoryFixed | src/services/store.ts:128-160 | the corrected merge keeps the same guarantees: stripped save, order of the unmentioned chats, a save on every added or deleted chat, and no save exactly when nothing changed |
| Store.LoopOutside | src/services/store.ts:133-148 | the merge loop leaves the chats outside a list that holds every saved uuid exactly as they were, order included |
| Store.ReshapeSaves | src/services/store.ts:136-147 | a saved chat that is new or a known deleted one sets the flag, wherever it sits in the file |
| Store.UnchangedLoop | src/services/store.ts:131-147 | with patching that reports every change, the flag stays clear exactly when every saved chat is known, not deleted and unchanged by its patch, and then the chats are untouched |
| Store.PatchNothing | src/services/store.ts:128-160 | an empty file changes nothing and saves nothing |
| Store.NewChatsAppended | src/services/store.ts:143-147 | chats the memory does not know are appended in file order, and the history is saved |
| Store.UnsavedKeepsChats | src/services/store.ts:128-160 | when nothing is saved, the chats in memory keep their uuids in order |
| Store.PatchedIgnoresPatch | src/services/store.ts:141 | as written, once anything changed, the rest of the merge no longer calls patchFromJson |
| Store.AbsentStaysAbsent | src/services/store.ts:134-148 | a uuid neither in memory nor in the file never appears |
| Store.DeletedChatRemoved | src/services/store.ts:137-139 | a chat deleted in the file and known in memory is gone after the merge |
| Store.FixedAdoptsEverySavedChat | src/services/store.ts:134-148 | corrected, with the saved version winning, every chat of the file that is not deleted is in memory afterwards |
| Store.SecondChangeLost | src/services/store.ts:141 | as written, when two known chats both changed in the file, the second keeps its old version, and that version is saved back |
| Store.StripMessage | src/services/store.ts:91-95 | a message keeps its role, content and attachment; only the attachment's contents become null |
| Store.StripAttachments | src/services/store.ts:88-96 | the saved copy has no attachment contents and differs from the chats in nothing else |
| Store.StripIdempotent | src/services/store.ts:88-96 | stripping twice is stripping once |
| Store.StripStripped | src/services/store.ts:88-96 | a history without contents is saved as it is |
| Store.FirstReady | src/services/store.ts:37-43 | the first ready engine of the list, or none exactly when none is ready |
| Store.SelectEngine | src/services/store.ts:36-44 | a ready configured engine is kept; otherwise the first ready listed engine is chosen; otherwise the setting is unchanged |
| Store.SelectedIsReady | src/services/store.ts:36-44 | the chosen engine is ready exactly when the configured engine or a listed one is |
| Assistant.FreshChat | src/services/assistant.js:25-26 | a new chat holds just the system message with the default instructions |
| Assistant.NewChat | src/services/assistant.js:16-30 | the last chat of the store is reused when it has at most one message, with nothing saved; with an empty store the current chat is the candidate; otherwise a fresh chat with just the system message is appended and saved; the chat returned is always unused |
| Assistant.NewChatTwice | src/services/assistant.js:16-30 | asking for a new chat right after getting one returns the same chat and saves nothing |
| Assistant.StripQuotes | src/services/assistant.js:111 | `replace(/^"\|"$/g, '')` removes one leading and one trailing double quote; a lone quote is removed once |
| Assistant.CleanTitle | src/services/assistant.js:107-111 | the cleaned title never starts or ends with whitespace and is no longer than the reply |
| Assistant.LabelledQuotedTitle | src/services/assistant.js:107-111 | a reply `Title: "t"` gives back t for any trimmed t |
| Assistant.CleanTitleKept | src/services/assistant.js:107-111 | a reply that is already a clean title, unlabelled and unquoted, is kept |
| Assistant.Prompt | src/services/assistant.js:48-80 | a blank prompt changes and saves nothing; otherwise the trimmed prompt and an empty assistant message are appended, and the title is requested exactly on the chat's first answer, from the titling instructions and the messages at positions 1 and 2 |
| Assistant.FirstPromptOfFreshChat | src/services/assistant.js:48-101 | the first prompt of a new chat leaves three messages, and the title is asked from the user's prompt and the answer being written |
| Assistant.SecondPromptKeepsTitle | src/services/assistant.js:72-75 | a second prompt leaves five messages and asks for no title |
| JsString.Trim | src/services/assistant.js:51 | trim returns the infix between all-whitespace margins, with no whitespace at either end |
| JsString.TrimIdempotent | src/services/assistant.js:111 | trimming twice is trimming once |
| JsString.TrimEmptyIffAllSpace | src/services/assistant.js:51-54 | a string trims to '' exactly when it is all whitespace |
| JsString.TrimPadded | src/rag/docbase.ts:94 | whitespace around a trimmed non-empty string is exactly what trim removes |
| JsString.IndexOf | src/main/mcp.ts:407 | indexOf finds the first occurrence, and finds none exactly when the pattern does not occur |
| JsString.ReplaceFirst | src/main/mcp.ts:407 | replace with a string pattern rewrites only the first occurrence, and nothing when there is none |
| JsString.JoinSplit | src/main/mcp.ts:51 | splitting on a character and joining with it gives back the string |
| JsString.SplitJoin | src/main/mcp.ts:186 | joining pieces without the separator and splitting again gives back the pieces |
| JsString.SlicePrefix | src/main/mcp.ts:426 | slice(0, n) is the prefix of length min(n, length) |

## Findings

| source | as written | input that shows it | evidently intended | confidence | as-written member | corrected member |
|---|---|---|---|---|---|---|
| src/main/config.ts:54-62 | the legacy migration replaces `engines` with an object holding only `openai` and `ollama`, so nullifyDefaults then reads `engines.sdwebui.baseURL` on undefined and buildConfig throws | a settings file `{"openai": {"apiKey": "k"}}` over defaults that define the three engines | the legacy engine settings are moved into the existing `engines` object, next to the engines it already has | not executed | Config.LegacyEnginesAlwaysFail | Config.FixedMigrationLoads |
| src/main/mcp.ts:421-442 | mcpToOpenAI reads `tool.description.slice` and `Object.keys(tool.inputSchema.properties)` unguarded; the Model Context Protocol makes both optional, so the conversion throws, and getTools (387-398) then drops every tool of that server | a server listing a tool `{name: "ping", inputSchema: {type: "object"}}` next to other tools | a tool without description or parameters is offered with an empty description and no parameters | not executed | Mcp.ParameterlessToolHidesServer | Mcp.OfferedToolsAreCallable |
| src/services/store.ts:141 | `patched = patched \|\| chat.patchFromJson(jsonChat)` short-circuits: once any chat changed, no later known chat is patched, and the stale versions are then saved over the file | chats a and b in memory; the file holds both with new titles | every known chat is patched from the file, whatever changed before it | not executed | Store.SecondChangeLost | Store.FixedAdoptsEverySavedChat |

## Left out

- Embedding vectors, the vector database connection and the transaction mechanics: chunks are inserted with their metadata, and the vector is not part of the trace.
- Failures of the splitter, the embedder, `db.insert`, `db.delete` and the file lister: they are assumed not to throw. Only the loader's failure is modelled, as `load` returning nothing. In addFolder, every per-file failure is therefore an addDocument rejection.
- `src/rag/docsource.ts` is not part of this model. The metadata title is the resolved title itself, without `getTitle()`'s fallback, and the metadata url is the origin.
- The fallback to the default `maxDocumentSizeMB`: the `Env` carries the limit already resolved.
- Fractional size limits: `maxDocumentSizeMB` is a JavaScript number, so a setting such as 0.5 is valid, while the model's `maxDocumentSizeMB` is an integer.
- UTF-16 length: `text.length` in docbase.ts and the `slice(0, 1024)` of tool and parameter descriptions at src/main/mcp.ts:426 and :433 count UTF-16 code units, while the model counts characters. Texts with characters outside the Basic Multilingual Plane measure shorter in the model, and the model never splits a surrogate pair where `slice` can.
- Concurrency between overlapping asynchronous calls (two adds on the same base at once, a history monitor tick during a save): each operation runs to completion.
- Logging through `console`, which changes no state.
- Whitespace-only text: line 87 of src/rag/docbase.ts tests `!text`, which only the empty string fails, so such text is accepted; see DocBase.WhitespaceTextIsAccepted.
- Reading and writing the settings file, the backup of unreadable settings, and the file monitor. buildConfig's inputs are parsed JSON, and the default base URLs are parameters because the defaults file is not part of this model.
- JSON key order, non-integer numbers, and keys inherited from `Object.prototype`. Objects are maps, so getServers lists registry entries from a sequence that stands for the key order.
- saveSettings' own call to nullifyDefaults, and the client connection, disconnection, reload and monitor restart that follow deleteServer and editServer. Installing servers, the stdio and SSE transports, the tool-call RPC and getStatus are also not modelled.
- Mcp.EditServer: a user server without `registryId` would look up the key "undefined"; registry ids are modelled as strings.
- Mcp.StripUniqueName: requires a non-empty uuid without '_'. Without that condition the stripping can cut the wrong occurrence, as Mcp.StraddlingSuffix shows. Uuids from `crypto.randomUUID` and registry keys satisfy it when they contain no underscore.
- Store.PatchLoop: `patchFromJson` and `new Chat(json)` are taken to be total. In the code a throw from either ends the loop at that chat, inside the try/catch of store.ts:133-152, and the partial merge is still saved when something had changed before it.
- The Chat and Message classes are not part of this model. `new Chat(json)` is taken to be the saved record itself, and `patchFromJson` is a parameter. A new chat's engine, model, creation time and message ids are left out.
- The history file's size check and timer, loading the history, and `loadAllModels`. Engine readiness and the engine list are parameters.
- Routing, text and image generation by the language model, and their streaming. The title reply is a parameter. The assistant message's text at the moment the title is requested is taken to be empty.
