# loja — a Dafny model of the storefront's accounts, product files and orders

This project models the core of `loja`, a console storefront written in Python, and proves
properties of the model. The core has these parts:

- **The user directory** (`usuarios.py`, module `Users`). It registers users, looks them up by
  username or e-mail, validates logins, and runs the two-step password recovery.
  - The service holds the document of `db.json` in the class `Users.UserDirectory`: an
    ordered list of user records and a map from token to recovery entry.
  - Every operation is proved equal to a step function on that state. The step function
    states each outcome and the condition that leads to it.
  - SHA-256 is an arbitrary function `Hasher` from text to a 64-character lower-hex digest.
  - `secrets`, the clock and the new user id are parameters.
  - `hmac.compare_digest` is `ConstEq`. It raises `TypeError` on non-ASCII text, as the
    library does.
- **The document store** (`auth_manipulacao.py`, module `AuthStore`).
  - `_garantir_estrutura` repairs a dictionary in place (`EnsureStructure` on a `Dict` object).
  - `carregar_db` falls back to the empty document when `db.json` is missing, unparseable or not
    an object. `salvar_db` normalises the document before it writes it.
- **Field validators and the secret-stripping helper** (`src/utils/validators.py`,
  `src/utils/utils.py`, modules `Validators` and `Utils`).
  - The e-mail and username regular expressions are decided by explicit scanners. These are
    proved equivalent to a declarative description of the pattern, including the way Python's
    `$` also matches before one final "\n".
- **The product and order files** (`manipulacaoArquivos.py`, module `ProductFiles`).
  - The file system is a map from path to text, held by the class `Disk`.
  - `lerProdutosLocais` is a loop over the lines of the file. It strips each line, splits it at
    ';', keeps the lines with exactly four fields, and raises `ValueError` on an id that is not
    an integer.
  - The model proves that a product written by `gravarProdutoFakeStore` reads back as the same
    product, less trailing blanks of its description, which the read strips. This holds under two
    conditions: no field of the product contains ';' or a line break (`Storable`), and the file
    is missing or already ends a line.
- **The open order** (`pedidos.py`, module `Orders`).
  - `listaPedido` is the field `items` of `Orders.OrderBook`. Products are added to it by id
    (the API list first, then the local products), removed by 1-based position, and written out
    and cleared on close.
- **Local product maintenance** (`cadastros.py`, module `Registry`). It covers the next free id,
  registration, deletion by id and editing of the first match. Both deletion and editing
  rewrite the whole file in a loop, and each is proved to read back as intended.

Helper modules:
- `Wrappers`: Option and Result.
- `Json`: JSON values, Python's `dict.get` and truthiness.
- `Seqs`: first match, filter and `pop`.
- `Text`: `str.strip`, `str.split`, line iteration of a text file, `str(int)` and `int(str)`.

One consequence of the code is proved rather than assumed. `criar_usuario` checks usernames and
e-mails separately, so it accepts a username that equals another user's e-mail. Logging in with
that username then finds the older user first. `Users.UsernameShadowedByEmail` exhibits this,
and `Users.RegisteredUserCanLogIn` proves that logging in works when no earlier user's e-mail
equals the new username.

## Model

| member | source | states |
|---|---|---|
| Users.HashText | usuarios.py:13-14 | no contract of its own: `_hash_texto` is the hash of the salt followed by the text; `HashPassword`, `SecretMatches` and `LoginWithKnownSecret` state their results through it |
| Users.HashPassword | usuarios.py:17-20 | a supplied salt is returned as is, otherwise the 32-hex-char fresh one; the digest is `H(salt + password)` for the returned salt |
| Users.HashPasswordReproducible | usuarios.py:13-20 | hashing again with the salt handed out gives the same digest |
| Users.Mismatch | usuarios.py:23-24 | the full scan of two equal-length strings finds a difference exactly when they differ |
| Users.ConstEq | usuarios.py:23-24 | `compare_digest` gives an answer exactly when both strings are ASCII (otherwise `TypeError`), and the answer is string equality |
| Users.UserByLogin | usuarios.py:32-37 | None exactly when no record's username or e-mail equals the login; otherwise a record that matches (the first one, via `LoginIndex`) |
| Users.TextOr | usuarios.py:82-83 | `u.get(key, "")`: "" for a missing key; the stored text when the stored value is a str; None (not usable as a str) exactly when it is something else |
| Users.SecretMatches | usuarios.py:82-84 | true exactly when both fields are strings and the stored digest equals `H(salt + text)`; the comparison raises exactly when a field is not a str or the stored digest is not ASCII |
| Users.DigestIsAscii | usuarios.py:14 | every hex digest is ASCII, so comparing a computed digest never raises because of it |
| Users.RegisterStep | usuarios.py:40-72 | an empty username, e-mail or password fails with the store unchanged, and that failure happens only then; success exactly when no record conflicts; the message comes from the first conflicting record, with username checked before e-mail; on failure nothing changes; on success exactly the new record is appended |
| Users.LoginOutcome | usuarios.py:75-88 | not found, then inactive (a missing `ativo` counts as active), then wrong password, each exactly when its condition holds; on success the found record minus the four secret keys |
| Users.IsActive | usuarios.py:79 | a record without "ativo" is active; otherwise it is active exactly when the stored value is truthy |
| Users.Question | usuarios.py:104 | the stored question when it is truthy, else "Pergunta de segurança" |
| Users.BeginRecoveryStep | usuarios.py:91-104 | unknown login fails with the store unchanged; a record without "id" raises `KeyError`; otherwise exactly one token is added, mapped to `(u["id"], now + 900)`, and users are unchanged |
| Users.ConcludeRecoveryStep | usuarios.py:107-144 | each outcome happens exactly under its condition: unknown token (nothing changes); expired, `expira_em < now` (only the token is removed); token live but the first record with its user id is absent or empty (nothing changes); answer digest differs (nothing changes, token kept); the comparison raises (nothing changes); answer matches (only that user's password digest and salt are replaced and the token is removed) |
| Users.UserDirectory.ListUsers | usuarios.py:27-29 | returns the users list |
| Users.UserDirectory.FindByLogin | usuarios.py:32-37 | the scanning loop returns the first record that matches the login |
| Users.UserDirectory.Register | usuarios.py:40-72 | new state and outcome are those of `RegisterStep`; saves once exactly on success |
| Users.UserDirectory.ValidateLogin | usuarios.py:75-88 | the outcome is that of `LoginOutcome` |
| Users.UserDirectory.BeginRecovery | usuarios.py:91-104 | new state and outcome are those of `BeginRecoveryStep`; saves once exactly on success |
| Users.UserDirectory.ConcludeRecovery | usuarios.py:107-144 | the owner-scanning loop gives the state and outcome of `ConcludeRecoveryStep`; saves on success and on expiry only |
| Users.LoginWithKnownSecret | usuarios.py:75-88 | with the found user's salt and digest known, login succeeds exactly when `H(salt + password)` equals the digest, else fails as a wrong password |
| Users.NewUser | usuarios.py:56-69 | no contract of its own: the record `criar_usuario` builds; `NewUserFacts` states its fields |
| Users.NewUserFacts | usuarios.py:56-69 | the new record holds the username, e-mail, `ativo = True`, `roles = ["cliente"]` and the password digest under its fresh salt |
| Users.RegisteredUserCanLogIn | usuarios.py:40-88 | after a successful registration whose username is no earlier user's e-mail, logging in with it and the same password returns the new record without secrets, and any password with another digest is refused |
| Users.UsernameShadowedByEmail | usuarios.py:32-51 | registering "bob" next to a user whose e-mail is "bob" succeeds, but logging in as "bob" then finds the older user |
| Users.RecoveryResetsPassword | usuarios.py:75-144 | after a successful recovery, login with the new password succeeds |
| Users.TokenSingleUse | usuarios.py:115-139 | a token that was consumed or purged as expired is "Token inválido." on the next attempt |
| Users.FailedAnswerKeepsToken | usuarios.py:121-132 | a wrong answer or a missing owner leaves the document as it was, so the token can be used again |
| Users.RecoveryWithinLifetimeSucceeds | usuarios.py:97-112 | a token started at `t` has not expired at any `now <= t + 900` |
| AuthStore.Normalized | auth_manipulacao.py:16-21 | the result has a list under "usuarios" and an object under "recuperacoes"; the keys are the input's plus those two; other keys keep their values; a correctly typed managed key is kept, and a missing or mistyped one becomes `[]` or `{}` |
| AuthStore.NormalizedWellFormed | auth_manipulacao.py:16-21 | a document that already has both collections is returned unchanged |
| AuthStore.NormalizedIdempotent | auth_manipulacao.py:16-21 | normalising twice is normalising once |
| AuthStore.EnsureStructure | auth_manipulacao.py:16-21 | repairs the given dict in place and returns that same dict |
| AuthStore.LoadedDocument | auth_manipulacao.py:24-39 | missing, unparseable or non-object content loads as `{"usuarios": [], "recuperacoes": {}}`; an object loads normalised; the result is always well formed |
| AuthStore.DbFile.Load | auth_manipulacao.py:24-39 | returns a fresh dict holding `LoadedDocument` of the file state, never raising |
| AuthStore.DbFile.Save | auth_manipulacao.py:42-55 | normalises the caller's dict in place, then stores exactly it |
| AuthStore.LoadAfterSave | auth_manipulacao.py:39-51 | loading after a save gives back the normalised form of the saved document |
| AuthStore.SaveLoadedIsNoOp | auth_manipulacao.py:24-55 | saving what was loaded and loading again gives the same document |
| Validators.EmailShapeIsPattern | src/utils/validators.py:11 | the scanner accepts exactly the strings the e-mail expression matches in full |
| Validators.ShapeGivesSplit | src/utils/validators.py:11 | a scanned e-mail has an '@' and a last '.' splitting it as the expression requires |
| Validators.SplitGivesShape | src/utils/validators.py:11 | any such split is accepted by the scanner |
| Validators.ValidateEmail | src/utils/validators.py:15-20 | an empty e-mail gives "E-mail é obrigatório."; accepted exactly when the expression matches, with or without one final "\n"; success is `(True, "")`; a non-empty e-mail that does not match gives "E-mail inválido." |
| Validators.ValidateUsername | src/utils/validators.py:12-28 | an empty username gives "Username é obrigatório."; accepted exactly when it is 3 to 20 characters from `[a-zA-Z0-9_.-]`, with or without one final "\n"; success is `(True, "")`; a non-empty username that does not match gives the rule message "Username deve ter 3-20 caracteres e conter apenas letras, números e ._-." |
| Validators.ValidatePassword | src/utils/validators.py:31-41 | fewer than 6 characters gives the length message first; otherwise accepted exactly when there is a letter and a digit, with `(True, "")`, and rejected with "Senha deve conter letras e números." |
| Utils.WithoutSensitive | src/utils/utils.py:15-17 | the keys are the input's minus the sensitive ones, and every kept key keeps its value |
| Utils.WithoutSensitiveIdempotent | src/utils/utils.py:15-17 | cleaning twice is cleaning once |
| Utils.WithoutNothing | src/utils/utils.py:15-17 | with no sensitive keys the copy equals the input |
| Json.GetOr | usuarios.py:79 | `d.get(key, default)`: the stored value when present, else the default |
| Seqs.FirstIndex | usuarios.py:34-36 | the position of the first element that satisfies the test, or None when none does |
| Seqs.Filter | cadastros.py:55 | the comprehension keeps exactly the elements that pass the test |
| Seqs.FilterConcat | cadastros.py:55 | filtering keeps the order: it distributes over concatenation |
| Seqs.RemoveAt | pedidos.py:100 | `pop(i)`: one element shorter; the elements before `i` stay put and those after move down by one |
| Text.Strip | manipulacaoArquivos.py:14 | the result is a middle part of the text, with only whitespace cut away before and after it, and neither of its ends is whitespace |
| Text.LStripIsSuffix | manipulacaoArquivos.py:14 | `lstrip` only removes a prefix, and that prefix is all whitespace |
| Text.RStripIsPrefix | manipulacaoArquivos.py:14 | `rstrip` only removes a suffix, and that suffix is all whitespace |
| Text.StripTrims | manipulacaoArquivos.py:14 | stripping cuts only whitespace, before and after a middle part of the text |
| Text.StripKeepsNoLineBreak | manipulacaoArquivos.py:14 | stripping adds no line break |
| Text.RStripAfter | manipulacaoArquivos.py:7-14 | trailing whitespace after a non-blank prefix is all `rstrip` removes |
| Text.Split | manipulacaoArquivos.py:14 | `split(";")` gives at least one field, none containing the separator |
| Text.SplitLastIsSuffix | manipulacaoArquivos.py:14 | the last field is a suffix of the text, and a single field is the whole text |
| Text.SplitKeepsNoLineBreak | manipulacaoArquivos.py:14 | fields of a text without line breaks have none |
| Text.JoinSplit | manipulacaoArquivos.py:14 | joining the fields with the separator gives back the text |
| Text.SplitWithoutSep | manipulacaoArquivos.py:14 | a text without the separator is one field |
| Text.SplitAtFirstSep | manipulacaoArquivos.py:14 | a separator-free first field is cut at the first separator |
| Text.SplitJoin | manipulacaoArquivos.py:7-14 | separator-free fields joined and split again come back unchanged |
| Text.JoinFour | manipulacaoArquivos.py:7 | four fields joined with ';' are the line the f-string writes |
| Text.Lines | manipulacaoArquivos.py:13 | a non-empty text has at least one line; `LinesOfTerminated`, `LinesOfUnterminated` and `LinesConcat` give the lines of any text built from break-free lines |
| Text.LinesHaveNoLineBreak | manipulacaoArquivos.py:13 | no line read from a file contains a line break |
| Text.LinesConcat | manipulacaoArquivos.py:6-13 | text appended after a line terminator adds lines after the old ones, which stay as they were |
| Text.LinesOfUnterminated | manipulacaoArquivos.py:13 | a last line without a terminator reads back as exactly that line |
| Text.LinesOfTerminated | manipulacaoArquivos.py:7-13 | a line written with its terminator ("\n" or "\r") reads back as exactly that line |
| Text.IntToStr | manipulacaoArquivos.py:7 | `str(id)` is an optional '-' followed by decimal digits, with no leading zero ("0" alone, and no "-0") |
| Text.ParseInt | manipulacaoArquivos.py:18 | `int()`: a value exactly when the stripped text is an optional sign followed by at least one digit (otherwise the `ValueError`); a leading '-' gives a value of at most 0, anything else a value of at least 0; the magnitude is what the digits after the optional sign denote, so surrounding whitespace and a leading '+' do not change it (`int(" 007") == 7`, `int("+3") == 3`, with `DigitsValueLeadingZero` for the zeros); `ParseIntOfIntToStr` gives `int(str(n)) == n` |
| Text.DigitsValueOfDigits | manipulacaoArquivos.py:7-18 | the digits of `n` denote `n` |
| Text.DigitsValueLeadingZero | manipulacaoArquivos.py:18 | a leading zero does not change the number a string of digits denotes |
| Text.ParseIntOfIntToStr | manipulacaoArquivos.py:7-18 | `int(str(n)) == n` |
| Text.StripOfIntToStr | manipulacaoArquivos.py:7-14 | `strip` leaves `str(n)` alone |
| ProductFiles.ParseLine | manipulacaoArquivos.py:14-22 | a line is skipped exactly when its stripped text does not split into four fields, and raises exactly when it does but the first field is no integer; otherwise the product is `int()` of the first field, then the other three fields in order |
| ProductFiles.FormatRecord | manipulacaoArquivos.py:7 | no contract of its own: the f-string line without its "\n"; `ParseFormatted`, `FormattedHasNoLineBreak` and `ReadAfterAppend` state what reading it back gives |
| ProductFiles.FieldsArePlain | manipulacaoArquivos.py:14 | fields read from a line contain no ';' and no line break |
| ProductFiles.LastFieldEndsClean | manipulacaoArquivos.py:14 | the last field of a stripped line does not end in whitespace |
| ProductFiles.ReadLineCanonical | manipulacaoArquivos.py:13-22 | a product read from a line is canonical: written back, it reads as the same product (the line itself may differ, as " 007;a;b;c" is written back as "7;a;b;c") |
| ProductFiles.ParseFormatted | manipulacaoArquivos.py:5-22 | the line written for a product whose fields have no ';' or line break reads back as that product, less trailing blanks of its description |
| ProductFiles.ParseAll | manipulacaoArquivos.py:13-15 | one line result per line, and result `i` is what line `i` reads as |
| ProductFiles.Collect | manipulacaoArquivos.py:12-22 | never more products than lines |
| ProductFiles.CollectSnoc | manipulacaoArquivos.py:13-22 | reading one more line adds its product at the end, skips it, or fails |
| ProductFiles.CollectConcat | manipulacaoArquivos.py:13-22 | reading two runs of lines gives the first run's products followed by the second's, and the first error wins |
| ProductFiles.ParseAllConcat | manipulacaoArquivos.py:13-22 | line results of two runs of lines are concatenated |
| ProductFiles.ReadOneMore | manipulacaoArquivos.py:13-22 | reading the first `i + 1` lines is reading the first `i`, then line `i` |
| ProductFiles.ReadErrorSticks | manipulacaoArquivos.py:18 | once a prefix of the lines raises, reading the whole file raises the same way |
| ProductFiles.CollectCanonical | manipulacaoArquivos.py:13-22 | every product read from lines can be written back unchanged |
| ProductFiles.ReadProducts | manipulacaoArquivos.py:24-25 | a missing file reads as no products |
| ProductFiles.ReadProductsCanonical | manipulacaoArquivos.py:9-25 | everything `lerProdutosLocais` returns can be written back unchanged |
| ProductFiles.ParseAppendedLine | manipulacaoArquivos.py:6-22 | a line appended to a file that ends a line is read after the lines already there |
| ProductFiles.ParseAppendedProduct | manipulacaoArquivos.py:5-22 | a product's line appended to such text adds that product, less trailing blanks of its description, after the products already read |
| ProductFiles.ReadAfterAppendLine | manipulacaoArquivos.py:6-25 | the same on the file system, a missing file counting as empty |
| ProductFiles.ReadAfterAppend | manipulacaoArquivos.py:5-25 | writing a product adds exactly that product, less trailing blanks of its description, after the ones already read |
| ProductFiles.FormattedHasNoLineBreak | manipulacaoArquivos.py:7 | a product's line has no line break when its fields have none |
| ProductFiles.Render | manipulacaoArquivos.py:7 | the text of a file of products always ends a line |
| ProductFiles.ReadRendered | manipulacaoArquivos.py:7-22 | a file holding the lines of canonical products reads back as exactly those products |
| ProductFiles.IndexOfId | cadastros.py:42 | the position of the first product with the id, or None exactly when none has it |
| ProductFiles.IndexOfIdAt | cadastros.py:42 | the first product with the id is the one found |
| ProductFiles.WithoutId | cadastros.py:55 | exactly the products whose id differs are kept |
| ProductFiles.WithoutIdConcat | cadastros.py:55 | filtering by id keeps the order |
| ProductFiles.WithoutIdOne | cadastros.py:55 | a single product is kept exactly when its id differs |
| ProductFiles.ToOrderDicts | manipulacaoArquivos.py:29 | same length, and item `i` becomes `{id, nome, preco}` of item `i` |
| ProductFiles.Disk.AppendProduct | manipulacaoArquivos.py:5-7 | appends exactly `id;title;price;description\n` to the products file, creating it if missing |
| ProductFiles.Disk.ReadLocalProducts | manipulacaoArquivos.py:9-25 | the reading loop returns `ReadProducts` of the files |
| ProductFiles.Disk.AppendOrder | manipulacaoArquivos.py:27-31 | appends exactly `stamp;json\n` to the orders file, the JSON being `dumps` of the mapped items |
| ProductFiles.Disk.DeleteTemporaryFiles | manipulacaoArquivos.py:36-39 | removes exactly those of the two files that exist; everything else is unchanged |
| ProductFiles.OrderAppendsOneLine | manipulacaoArquivos.py:30-31 | each order written adds exactly one line after the existing ones |
| Registry.MaxId | cadastros.py:26 | an id of some product that no product exceeds |
| Registry.NextId | cadastros.py:24-26 | no contract of its own: `gerar_id_produto` on the products read; `NextIdIsFresh` states 21 for no products, otherwise one more than some id and above every id |
| Registry.NextIdIsFresh | cadastros.py:24-26 | 21 for no products; otherwise one more than some product's id; greater than every id |
| Registry.NextIdKeepsIdsUnique | cadastros.py:15-26 | a product given the next id keeps ids unique |
| Registry.GenerateProductId | cadastros.py:24-26 | the next id of what the file reads as, or the read's error |
| Registry.RegisterStep | cadastros.py:5-22 | only kinds "1" and "2" register; with one of them, the call raises (`ValueError`) exactly when `float()` rejects the price or reading the products raises, with nothing written; otherwise it succeeds and appends exactly the product with the next id; no change on any other outcome |
| Registry.RegisterItem | cadastros.py:5-22 | new files and outcome are those of `RegisterStep` |
| Registry.ReadAfterRegister | cadastros.py:5-26 | the registered product reads back after the others, under an id none of them has |
| Registry.RewriteProducts | cadastros.py:56-58 | the rewriting loop leaves the products file holding exactly the lines of the products, and nothing else changed |
| Registry.ReadAfterRewrite | cadastros.py:56-58 | a rewrite with products as read reads back as exactly those products |
| Registry.ConfirmsYes | cadastros.py:49-50 | no contract of its own: `strip().upper() == "S"`, i.e. the stripped answer is "S", "s" or "ſ" (U+017F), the characters whose upper case is "S"; `DeleteStep` states that deletion happens exactly when it holds |
| Registry.DeleteStep | cadastros.py:28-64 | read failure, no products, non-integer id, unknown id and a refused confirmation each end the call exactly under their condition, with nothing written; a found id with a confirming answer always succeeds and rewrites the file without the id's products |
| Registry.DeleteItem | cadastros.py:28-64 | new files and outcome are those of `DeleteStep` |
| Registry.ReadAfterDelete | cadastros.py:55-58 | after a deletion the file reads as the old products without those of the id, in order, and there are fewer of them |
| Registry.WithoutIdDrops | cadastros.py:55 | removing an id some product has leaves fewer products |
| Registry.WithoutIdShrinks | cadastros.py:55 | filtering never adds products |
| Registry.NewPrice | cadastros.py:88-89 | a blank price keeps the old one; otherwise the price is `float()` of the input, which may raise |
| Registry.OrKeep | cadastros.py:87-90 | no contract of its own: `input(...) or current`, the typed text unless it is empty; `ReadAfterEdit` states its effect on the file |
| Registry.Edited | cadastros.py:87-94 | no contract of its own: the product with the new name, price and description, each kept when left empty, and the id unchanged; `ReadAfterEdit` and `EditedCanonical` state what is written and read back |
| Registry.EditStep | cadastros.py:66-104 | read failure, no products, unknown id and invalid input (a non-integer id, or a price `float()` rejects) each end the call exactly under their condition, with nothing written; a found id with an acceptable price always succeeds; only the first product of the id is replaced by its edited version and the whole list is rewritten |
| Registry.EditItem | cadastros.py:66-104 | new files and outcome are those of `EditStep` |
| Registry.ReadAfterEdit | cadastros.py:80-98 | after an edit with storable fields the file reads as before, with only the first product of the id replaced and empty answers keeping the old values |
| Registry.UpdateCanonical | cadastros.py:92-94 | replacing one product with a storable one keeps the list storable |
| Registry.EditedCanonical | cadastros.py:87-94 | the edited product is storable when the typed fields are |
| Orders.AddStep | pedidos.py:49-58 | a non-integer id changes nothing; an id no product has changes nothing; otherwise exactly one item is appended, taken from the first product with that id |
| Orders.ItemOf | pedidos.py:53 | no contract of its own: the tuple `(id, title, price)` appended to `listaPedido`; `AddStep` states that the appended item is `ItemOf` the first product with the id |
| Orders.ApiBeforeLocal | pedidos.py:45-51 | an API product shadows a local one with the same id |
| Orders.LocalAfterApi | pedidos.py:45-51 | an id the API list lacks is found among the local products |
| Orders.RemoveStep | pedidos.py:85-106 | an empty order, a non-integer, 0 and an out-of-range number each change nothing and end the call exactly under their condition; `1 <= k <= len` removes exactly item `k` and keeps the rest in order |
| Orders.RemoveUndoesAdd | pedidos.py:52-100 | removing the last position right after an add restores the order |
| Orders.OrderBook.constructor | pedidos.py:7 | the order starts empty |
| Orders.OrderBook.Add | pedidos.py:35-59 | a failing local read leaves the order unchanged; otherwise the new order and outcome are those of `AddStep` on the API list followed by the local products |
| Orders.OrderBook.RemoveItem | pedidos.py:85-106 | new order and outcome are those of `RemoveStep` |
| Orders.OrderBook.Close | pedidos.py:61-75 | an empty order writes nothing; otherwise the order as it stood is appended as one line, and the order is left empty |

## Left out

- Console I/O: menus, prompts, pauses and messages are left out. Typed answers are parameters, and each outcome names its message.
- HTTP: the product list from fakestoreapi.com is a parameter of `Orders.OrderBook.Add`. Its failure fallback to `[]` is the caller's choice of that list.
- The JSON text of `db.json` and `Pedidos.txt`: `json.load`, `json.dump` and the `ma`/`open` fallback are reduced to their outcome. `json.dumps` is the parameter `dumps`, and `str(datetime.now())` is the parameter `stamp`.
- Time and randomness: `time.time()`, `secrets.token_hex` and `secrets.token_urlsafe` are parameters.
- `fechar_pedido` also asks for a name and a CPF, which it discards. Those prompts are not modelled.
- `listar_pedidos` and the menu loops only display; they are not modelled.
- `Users.ConstEq`: constant-time behaviour of `hmac.compare_digest` cannot be stated. Only its result and its `TypeError` are modelled.
- `Users.HashPassword`: SHA-256 is an arbitrary function. "A wrong password fails" therefore holds only for passwords with a different digest, a hypothesis the lemmas state.
- `Users.UserDirectory`: every function of usuarios.py reloads `db.json`. The class holds the loaded document instead, and counts saves rather than writing text. Its `Directory` keeps only "usuarios" and "recuperacoes"; the other top-level keys of `db.json`, which `salvar_db` writes back untouched, are not carried by the class (`AuthStore.Normalized` states that they are kept).
- `Users.ConcludeRecoveryStep`: recovery entries are typed `(user_id, expira_em)` with an integer expiry. The `KeyError` or `TypeError` of a malformed entry in the file is not modelled.
- `Users.UserByLogin`: entries of "usuarios" are JSON objects. A non-object entry, on which `u.get` would raise `AttributeError`, is not modelled.
- `Json` has no float case: a float in `db.json` (such as `"ativo": 0.0` or `"id": 1.0`) is not modelled, and neither is its truthiness or its equality with an int.
- `Json` equality is structural. Python's `1 == 1.0 == True` across JSON numbers and booleans is not modelled.
- `Validators.ValidatePassword`: `str.isalpha` and `str.isdigit` are restricted to ASCII letters and digits.
- `Text.ParseInt`: `int()` of text with `_` between digits, or with non-ASCII decimal digits, is not modelled.
- `Text.Lines`: Python's universal newlines turn "\r\n" into one line end. The model splits at "\r" and at "\n" separately. The extra empty segment has one field and is skipped, so the products read are the same.
- `ProductFiles.ParseLine`: the price is kept as the text in the file. The `ValueError` that `float(price)` raises on a non-numeric price is not modelled. A rewrite writes the price text back as read, where Python writes `str(float)` (for example "10" becomes "10.0").
- `Registry.NewPrice`: `float()` of a typed price and its formatting are the parameter `toPrice`; real-number prices are not modelled.
- `lerArquivo` in manipulacaoArquivos.py is a thin wrapper around `open`, and `agora_epoch` in utils.py reads the clock. Neither is modelled.
