# DLX: a verified model of the framework's core

DLX is a small PHP MVC framework. A request URL goes through the route table
of the `DLX` class to the router (`Roteador`). The router resolves it into a
`Controle`: the application, module, controller, action and parameters. The
controller works with record models (`BaseModeloRegistro`). These build their
SQL through the fluent `ConstrutorSQL` and run it through the `PDODL`
connection. The controller then renders a `Visao`: templates, assets and
parameters, composed into a master page. Helper classes supply the HTML forms,
links and lists, the calendar, file uploads, and string and array utilities.
Two small client-side JavaScript functions are also part of the core.

This project models that core in Dafny and proves properties of the model.

Each source file has one Dafny module of the same name:

- `ClasseConstrutorSql` (construtorsql.dfy) is the SQL builder. It is a class
  whose clause lists are fields, and `ToString` renders them in the fixed order.
- `AjdConstrutorSql` (sqlhelper.dfy) holds the keyword validators, aliases,
  literal export, the schema filter, the WHERE-to-PREPARE rewrite and the
  SELECT field-list substitution.
- `CriarSql` (crud.dfy) covers `criarInsert` and `criarUpdate`.
- `Pdodl` covers the DSN, the pagination rewrite, escaping and the primary-key
  prefix.
- `ModeloRegistro` (basemodeloregistro.dfy) covers selecting, listing, saving
  and deleting a record.
- `ControleRegistro` covers the record controller.
- `Roteador`, `Controle` and `Dlx` cover routing, the call target, the
  configuration, the routes and the autoloader path.
- `Evento` covers the before/after handler trait.
- `Visao` and `VisaoAjudante` cover the view and its helper.
- `Vetores` and `Strings` cover the array and string helpers.
- `Calendario`, `Upload`, `Imagem`, `HTMLForm`, `HTMLLinks`, `HTMLLista`,
  `Diversos`, `Excecao`, `LogRegistro` and `Arquivos` cover the remaining
  helpers and classes.
- `Obj2QueryString` and `ObterOrientacaoImg` cover the JavaScript functions.

The shared modules model PHP itself:

- `Wrappers` holds `Option` and `Outcome`, where `Outcome` is either a value or
  a thrown `DLXExcecao` with its code.
- `Text` holds implode/explode, str_replace, case changes and trim.
- `Assoc` holds PHP's ordered arrays as association lists.
- `Values` holds PHP's mixed values and `empty()`.
- `Filtros` holds the `filter_var` variants.
- `Json` holds `json_encode` of strings.

Some things the code reaches outside itself for become parameters of the
model:

- the database's answers: rows, table descriptions, whether a statement
  succeeds;
- the file system, as a set of existing paths;
- the regular-expression matches the router needs;
- PHP reflection, as a table of classes and methods;
- the session and permissions;
- today's date.

Every regular expression that the model does evaluate is written out as a
scanner over the language it accepts.

## Model

| member | source | states |
|---|---|---|
| Arquivos.Cortar | dlx/ajudantes/arquivos.ajudante.php:327 | one step up: the base never grows |
| Arquivos.CortarForma | dlx/ajudantes/arquivos.ajudante.php:327 | the step removes a final `/name` or `/name/` (letters, `_`, `-`), or leaves a base without one as it is |
| Arquivos.Modelo | dlx/ajudantes/arquivos.ajudante.php:323 | the searched path is the file with a leading base removed, or the file itself when it does not start with the base |
| Arquivos.ProcurarDiretoriosAntecessores | dlx/ajudantes/arquivos.ajudante.php:320-331 | the loop answers the level-by-level search over the file-exists oracle, and a path it answers exists |
| Arquivos.BuscaPrimeiroNivel | dlx/ajudantes/arquivos.ajudante.php:320-331 | the answer is false exactly when no level from 0 to max(qtde_dir, 0) has an existing candidate; otherwise it is the candidate of the first level that exists |
| Arquivos.CandidatoSobe | dlx/ajudantes/arquivos.ajudante.php:326-327 | the candidate k levels up from base is the candidate k - 1 levels up from its parent |
| Arquivos.PrimeiroSobe | dlx/ajudantes/arquivos.ajudante.php:326-329 | when level 0 does not exist, the first existing level of the parent is the first existing level of base |
| Arquivos.UltimoPedaco | dlx/ajudantes/arquivos.ajudante.php:212-213 | `end(explode('.', b))` holds no '.' and ends b, right after its last '.' |
| Arquivos.UltimaParte | dlx/ajudantes/arquivos.ajudante.php:212-213 | the last piece of explode is the text after the last separator |
| Arquivos.NomeArquivo | dlx/ajudantes/arquivos.ajudante.php:212-213 | the name is the part of the basename after its last '.', with no '.' and no '/' |
| Arquivos.ObterInfos | dlx/ajudantes/arquivos.ajudante.php:210-236 | the record holds the name, the mime type, the encoding and the size given, and null as extension when no group of the table lists the mime type |
| Arquivos.ExtensaoPrimeiroGrupo | dlx/ajudantes/arquivos.ajudante.php:230 | a mime type listed by some group gets the value of the first group that lists it |
| Diversos.UrlDecode | dlx/ajudantes/diversos.ajudante.php:75 | urldecode never lengthens the text |
| Diversos.UrlDecodeSemEscapes | dlx/ajudantes/diversos.ajudante.php:75 | a text without '+' or '%' is left as it is |
| Diversos.UrlDecodeEncode | dlx/ajudantes/diversos.ajudante.php:75 | urldecode gives back what urlencode encoded |
| Diversos.UrlDecodeRecursivo | dlx/ajudantes/diversos.ajudante.php:64-81 | an empty() value comes back as it is, a text is decoded, other scalars are kept, and an array or object keeps its kind and its keys |
| Diversos.DecodificarDesde | dlx/ajudantes/diversos.ajudante.php:69-72 | each entry is decoded recursively under its own key, in order |
| Diversos.UrlDecodeRecursivoSemEscapes | dlx/ajudantes/diversos.ajudante.php:64-81 | a value with nothing to decode comes back unchanged, however deeply it nests |
| Diversos.Post2Objeto | dlx/ajudantes/diversos.ajudante.php:41-54 | only a POST request changes the object, and then its properties and setter calls are those of the field-by-field load |
| Diversos.CarregarChaves | dlx/ajudantes/diversos.ajudante.php:45-51 | the object never gains a property |
| Diversos.CarregarSemSetter | dlx/ajudantes/diversos.ajudante.php:45-51 | a property without a setter ends with the decoded value of the last field of its name, or keeps its value |
| Diversos.CarregarComSetter | dlx/ajudantes/diversos.ajudante.php:45-51 | a property with a setter is not assigned directly |
| Diversos.CarregarSemPropriedades | dlx/ajudantes/diversos.ajudante.php:45-51 | fields that name no property change nothing |
| Evento.Registrar | dlx/ajudantes/evento.ajudante.php:90 | registering appends the handler to its own list and leaves every other list as it was |
| Evento.Evento.constructor | dlx/ajudantes/evento.ajudante.php:36 | both the 'antes' and the 'depois' tables start empty |
| Evento.Evento.PrimeiroRecusado | dlx/ajudantes/evento.ajudante.php:84-88 | the first name that is a public method (which throws 403), or none exactly when no name is one |
| Evento.Evento.AdicionarEvento | dlx/ajudantes/evento.ajudante.php:77-97 | with no public method among the names, the handler is registered for each existing method or '*', in order; otherwise only the names before the first public one are registered and it throws 1403 |
| Evento.Evento.ExecutarEvento | dlx/ajudantes/evento.ajudante.php:107-123 | the handlers called are the '*' handlers of that moment followed by the method's own, in registration order |
| Evento.Evento.Chamar | dlx/ajudantes/evento.ajudante.php:48-62 | `__call` runs the 'antes' handlers, then the method, then the 'depois' handlers, and returns the method's result |
| Evento.RegistrarTodosHandlers | dlx/ajudantes/evento.ajudante.php:84-96 | a list registration appends the handler once per occurrence of a name, after the handlers it had, and touches no other moment |
| Evento.RegistradoDisparaPorUltimo | dlx/ajudantes/evento.ajudante.php:107-123 | a handler registered for a method runs after the ones it had; executarEvento('*') runs the '*' handlers twice |
| Evento.DisparadosSoDoMetodo | dlx/ajudantes/evento.ajudante.php:107-123 | handlers registered for other methods never run |
| Excecao.ComoExibirValido | dlx/excecao/dlx.excecao.php:52-57 | the mode passes, lower-cased, exactly when it is json, html or texto, optionally followed by a final newline |
| Excecao.MensagemJsonVolta | dlx/excecao/dlx.excecao.php:76-77 | the JSON form reads back as exactly the message and the type |
| Excecao.PadroesFiltrados | dlx/excecao/dlx.excecao.php:60-64 | the constructor's defaults pass their filters unchanged |
| Excecao.DLXExcecao.constructor | dlx/excecao/dlx.excecao.php:60-64 | message and code are kept; type and mode go through their setters |
| Excecao.DLXExcecao.SetTipoMsg | dlx/excecao/dlx.excecao.php:36-38 | the type is sanitized, null when nothing is left; nothing else changes |
| Excecao.DLXExcecao.SetComoExibir | dlx/excecao/dlx.excecao.php:52-57 | the mode is the lower-cased mode when it is accepted, else null; nothing else changes |
| Excecao.DLXExcecao.ObterMensagem | dlx/excecao/dlx.excecao.php:72-85 | json gives a text reading back as the message and type, html the formatted message, texto the message itself; any other mode gives nothing |
| Excecao.ComoExibirComQuebra | dlx/excecao/dlx.excecao.php:52-57 | "JSON\n" passes the filter, and then no mode of obterMensagem matches |
| Obj2QueryString.Segmentos | web/js/funcoes/obj2querystring.js:6-7 | one "k=v" segment per key, in order |
| Obj2QueryString.Obj2QueryString | web/js/funcoes/obj2querystring.js:5-9 | an empty object gives "", a single key gives its one segment |
| Obj2QueryString.QueryStringSegmentos | web/js/funcoes/obj2querystring.js:5-9 | splitting at '&' gives back one segment per key, in order, when keys and values hold no '&' |
| Obj2QueryString.QueryStringSeparadores | web/js/funcoes/obj2querystring.js:5-9 | a non-empty object gives exactly one '&' fewer than it has keys |
| ObterOrientacaoImg.ObterOrientacaoImg | web/js/funcoes/obter-orientecao-img.js:9-14 | 'h' exactly when wider than tall, 'v' exactly when taller, 'q' exactly when square |
| ObterOrientacaoImg.ConcordaComServidor | web/js/funcoes/obter-orientecao-img.js:9-14 | the client classifies an image as the server's obterOrientacao does |
| Imagem.NovasDimensoes | dlx/classes/imagem.classe.php:195-202 | it throws 1403 with the operation's message exactly when both sizes are empty, and fails with a division by zero exactly when the missing size's ratio divides by the original's zero side; otherwise a given size is kept and a missing one is derived so that the original proportion is preserved |
| Imagem.Imagem.constructor | dlx/classes/imagem.classe.php:41-49 | no file, no image, zero sizes, JPEG quality 90 and PNG quality 7 |
| Imagem.Imagem.SetArquivo | dlx/classes/imagem.classe.php:77-86 | an empty name or a missing file throws 1404 and changes nothing; otherwise the sanitized name and the dimensions and type of the file are stored |
| Imagem.Imagem.SetQldeJpeg | dlx/classes/imagem.classe.php:100-104 | the quality is the integer given when it lies in 0..100, otherwise 90; nothing else changes |
| Imagem.Imagem.SetQldePng | dlx/classes/imagem.classe.php:118-122 | the quality is the integer given when it lies in 0..9, otherwise 7; nothing else changes |
| Imagem.Imagem.Redimensionar | dlx/classes/imagem.classe.php:194-219 | the guard (1403, "Para redimensionar…"), the division by zero and the final sizes of NovasDimensoes; on success only the working image changes, resized to them; a failure changes nothing |
| Imagem.Imagem.Recortar | dlx/classes/imagem.classe.php:233-253 | the same guard with its own message ("Para recortar…"), the division by zero and the sizes; on success only the working image changes, cut from the given corner |
| Imagem.Imagem.Rotacionar | dlx/classes/imagem.classe.php:264-275 | an empty or non-numeric angle throws 1403 and changes nothing; otherwise only the working image changes, rotated |
| Imagem.Imagem.ObterOrientacao | dlx/classes/imagem.classe.php:424-456 | 'v', 'h' or 'q' exactly when the image is vertical, horizontal or square, and exactly one of the three holds |
| Imagem.GrausInteiros | dlx/classes/imagem.classe.php:265 | any integer angle, as a number or as its text, is numeric and non-empty |
| LogRegistro.AcaoValida | aplicativos/comum/modelos/logregistro.modelo.php:132-137 | the action is kept exactly when one of its characters is A, E or X (the pattern is not anchored), else null |
| LogRegistro.AcaoSemAncora | aplicativos/comum/modelos/logregistro.modelo.php:132-137 | any text around a valid action is accepted too |
| LogRegistro.UsuarioValido | aplicativos/comum/modelos/logregistro.modelo.php:169-174 | the user is kept exactly when it validates as an integer of at least 1, else null |
| LogRegistro.UsuarioInteiro | aplicativos/comum/modelos/logregistro.modelo.php:169-174 | an integer is accepted exactly when it is at least 1; its decimal text exactly when it is also at most PHP_INT_MAX |
| LogRegistro.NomeFiltrado | aplicativos/comum/modelos/logregistro.modelo.php:188-190 | an empty name becomes 'Desconhecido'; any other is sanitized, null when nothing is left, and never holds a quote |
| LogRegistro.NomeSimples | aplicativos/comum/modelos/logregistro.modelo.php:188-190 | a plain name is stored as it is |
| LogRegistro.LogRegistro.constructor | aplicativos/comum/modelos/logregistro.modelo.php:225-249 | every field unset except the name, which starts as 'Desconhecido' |
| LogRegistro.LogRegistro.SetTabela | aplicativos/comum/modelos/logregistro.modelo.php:100-102 | the table is the sanitized text, null when empty; nothing else changes |
| LogRegistro.LogRegistro.SetRegpk | aplicativos/comum/modelos/logregistro.modelo.php:116-118 | the key is the sanitized text, null when empty; nothing else changes |
| LogRegistro.LogRegistro.SetAcao | aplicativos/comum/modelos/logregistro.modelo.php:132-137 | the action is filtered by AcaoValida; nothing else changes |
| LogRegistro.LogRegistro.SetData | aplicativos/comum/modelos/logregistro.modelo.php:153-155 | the date is stored as given; nothing else changes |
| LogRegistro.LogRegistro.SetUsuario | aplicativos/comum/modelos/logregistro.modelo.php:169-174 | the user is filtered by UsuarioValido; nothing else changes |
| LogRegistro.LogRegistro.SetNome | aplicativos/comum/modelos/logregistro.modelo.php:188-190 | the name is filtered by NomeFiltrado; nothing else changes |
| LogRegistro.LogRegistro.SetIp | aplicativos/comum/modelos/logregistro.modelo.php:204-206 | the address is kept only when FILTER_VALIDATE_IP accepts it (an IPv6 address when it holds a colon, a dotted quad otherwise, untrimmed), else null; nothing else changes |
| Filtros.SemTagsTexto | dlx/classes/upload.classe.php:104 | after tag stripping, every '<' left is followed by a blank, so no tag remains |
| Filtros.SemTagsTextoFixo | dlx/classes/upload.classe.php:104 | a text whose every '<' is followed by a blank loses nothing to tag stripping |
| Filtros.SanitizarIdempotente | dlx/classes/upload.classe.php:104 | FILTER_SANITIZE_STRING applied twice is applied once, and its result holds no quote |
| Filtros.SanitizarTextoSimples | dlx/classes/upload.classe.php:104 | a text without '<' and without quotes goes through unchanged |
| Filtros.SanitizarOuNulo | dlx/classes/upload.classe.php:104 | with FILTER_FLAG_EMPTY_STRING_NULL the result is null exactly when sanitizing leaves nothing, else that non-empty sanitized text |
| Filtros.SanitizarValor | dlx/classes/controle.classe.php:78 | a string is sanitized as text; null, arrays and objects give null; any result is non-empty and free of quotes |
| Filtros.ValidarInt | _auto/controles/basecontroleregistro.controle.php:128 | an integer passes as itself; null, false, arrays and objects fail; a text passes only with a number that fits a 64-bit PHP int, read as that number |
| Filtros.LerInteiroIntText | _auto/controles/basecontroleregistro.controle.php:128 | every integer written in decimal is read back as that integer |
| Filtros.ValidarIntTexto | _auto/controles/basecontroleregistro.controle.php:128 | the decimal text of an integer passes FILTER_VALIDATE_INT exactly when the integer lies in PHP_INT_MIN..PHP_INT_MAX, and then as that integer |
| Filtros.ValidarIntFaixa | dlx/ajudantes/calendario.ajudante.php:104-108 | the result is always in the range: the validated integer when it lies there, otherwise the default |
| Filtros.TextoPadrao | dlx/classes/controle.classe.php:145 | under FILTER_DEFAULT a leaf becomes text or null: a string stays, an integer becomes its decimal text |
| Filtros.FiltroPadraoArray | dlx/classes/controle.classe.php:145 | FILTER_REQUIRE_ARRAY gives a result exactly for an array, with as many entries |
| Filtros.FiltroPadraoEntrada | dlx/classes/controle.classe.php:145 | entry by entry the key stays, a leaf becomes its FILTER_DEFAULT text and a nested array is filtered in turn |
| Filtros.ValidarIp | aplicativos/comum/modelos/logregistro.modelo.php:205 | a text holding ':' passes exactly when it is an IPv6 address in a form of section 2.2 of RFC 4291; any other exactly when it is a dotted quad of octets without leading zeros; what passes comes back unchanged |
| Filtros.ValidarIpQuad | aplicativos/comum/modelos/logregistro.modelo.php:205 | every address written from four numbers up to 255 passes unchanged |
| Filtros.ValidarIpOitoGrupos | aplicativos/comum/modelos/logregistro.modelo.php:205 | eight groups of one to four hex digits joined with colons pass unchanged |
| Filtros.ValidarIpLoopback | aplicativos/comum/modelos/logregistro.modelo.php:205 | the compressed loopback "::1" passes |
| Filtros.ValidarIpDoisDuplos | aplicativos/comum/modelos/logregistro.modelo.php:205 | an address with two "::" fails |
| Filtros.ValidarIpSemTrim | aplicativos/comum/modelos/logregistro.modelo.php:205 | a leading blank makes the address fail: the filter does not trim |
| LogRegistro.LogRegistro.SetAgente | aplicativos/comum/modelos/logregistro.modelo.php:220-222 | the agent is stored as given; nothing else changes |
| LogRegistro.LogRegistro.AntesSalvar | aplicativos/comum/modelos/logregistro.modelo.php:230-247 | the handler run before salvar sets address, agent and date, and the user and name only when a session is active |
| Pdodl.DriverDSN | dlx/classes/pdodl.classe.php:66-68 | the driver is a non-empty run of lower-case letters that, followed by ':', starts the DSN |
| Pdodl.DriverDSNCompleto | dlx/classes/pdodl.classe.php:66-68 | a DSN starting with lower-case letters and ':' yields exactly those letters |
| Pdodl.Capturar | dlx/classes/pdodl.classe.php:70-80 | `key=value` capture: none exactly when the key is never followed by a value character; otherwise the value at the first place it is |
| Pdodl.CapturarValor | dlx/classes/pdodl.classe.php:70-80 | a captured value is non-empty, within the length bound, made of the allowed characters, and follows its key in the DSN |
| Pdodl.PDODL.constructor | dlx/classes/pdodl.classe.php:54-57 | the connection reads driver, host, port and database from its DSN |
| Pdodl.PDODL.InfosDSN | dlx/classes/pdodl.classe.php:65-81 | each of driver (upper-cased), host, port (1 to 6 digits) and database is set from the DSN when present, and an absent one keeps its value |
| Pdodl.PDODL.IncluirEscape | dlx/classes/pdodl.classe.php:279-296 | non-strings come back as they are; on MSSQL a string becomes '0x' followed by the hex of its UTF-8 bytes, on any other driver it goes through addslashes |
| Pdodl.BuscarOrderBy | dlx/classes/pdodl.classe.php:116 | `array_search("ORDER BY", ...)`: the first capture that is "ORDER BY", or none when none is |
| Pdodl.SemPar | dlx/classes/pdodl.classe.php:122 | unset of a capture and the one after it: the others keep their order |
| Pdodl.JanelaMssqlSpec | dlx/classes/pdodl.classe.php:98-131 | the MSSQL window is rows (pgn-1)*qtde+1 to pgn*qtde, exactly qtde rows, starting at row 1 on page 1 |
| Pdodl.PaginacaoSemQtde | dlx/classes/pdodl.classe.php:100-146 | without a positive page size the query is returned as it is |
| Pdodl.PaginacaoLimit | dlx/classes/pdodl.classe.php:135-142 | on MySQL a query without LIMIT gets exactly " LIMIT (pgn-1)*qtde,qtde" appended |
| Pdodl.PaginacaoJanela | dlx/classes/pdodl.classe.php:105-133 | on MSSQL the query ends with the BETWEEN of that window |
| Pdodl.RemoverLimit | dlx/classes/pdodl.classe.php:138 | removing `LIMIT` clauses never lengthens the query |
| Pdodl.RemoverLimitSem | dlx/classes/pdodl.classe.php:138 | a query without the word LIMIT is left as it is |
| Pdodl.RemoverLimitConcat | dlx/classes/pdodl.classe.php:138 | text in which no LIMIT clause starts is kept in front of the rest |
| Pdodl.Hex | dlx/classes/pdodl.classe.php:287 | `unpack('H*')` writes two hex digits per byte of a byte string |
| Pdodl.HexUtf8Exemplo | dlx/classes/pdodl.classe.php:287 | a string is hexed in its UTF-8 bytes: "ã" becomes "c3a3" |
| Pdodl.HexRoundTrip | dlx/classes/pdodl.classe.php:287 | reading the hex digits back gives the bytes |
| Pdodl.AddSlashes | dlx/classes/pdodl.classe.php:292 | addslashes never shortens |
| Pdodl.AddSlashesRoundTrip | dlx/classes/pdodl.classe.php:292 | stripslashes undoes addslashes |
| Pdodl.AddSlashesQuotes | dlx/classes/pdodl.classe.php:292 | every single quote of the result is preceded by a backslash |
| Pdodl.SemPrefixo | dlx/classes/pdodl.classe.php:224-225 | the prefix is removed from the start of a name that has it, and any other name is kept |
| Pdodl.IdentificaPK | dlx/classes/pdodl.classe.php:224-226 | one name per column, in order: unchanged without a prefix, else with the prefix stripped |
| Roteador.Outras | dlx/classes/roteador.classe.php:102 | the extra keys of an array route: exactly its entries under keys other than aplicativo, modulo, controle, acao and params, in order |
| Roteador.ParamsTexto | dlx/classes/roteador.classe.php:99 | an array route gives its 'params' entry or ""; a string route, by PHP's left-associative ternary, gives a text of at most one character |
| Roteador.Vinculos | dlx/classes/roteador.classe.php:117-125 | no more bindings than the route has segments |
| Roteador.VinculosPosicoes | dlx/classes/roteador.classe.php:117-125 | a ":name" segment at position c binds name to URL segment c exactly when the URL has a segment c, and nothing else binds |
| Roteador.CopiarOutras | dlx/classes/roteador.classe.php:113-115 | the first loop stores each extra key of the route, in order |
| Roteador.VincularSegmentos | dlx/classes/roteador.classe.php:117-125 | the second loop stores each binding of the route's segments, in order |
| Roteador.ObterParams | dlx/classes/roteador.classe.php:94-128 | the two loops give the parameters of the route, and [] when there is no ":name" placeholder and no extra key |
| Roteador.RotaTextoSemParams | dlx/classes/roteador.classe.php:99-107 | a string route never yields parameters |
| Roteador.OutrasCopiadasPrimeiro | dlx/classes/roteador.classe.php:113-115 | after the first loop every extra key holds its value from the route |
| Roteador.OutrasCopiadas | dlx/classes/roteador.classe.php:113-125 | an extra key of an array route reaches the parameters with its value when no ":name" segment rebinds it |
| Roteador.MesclarTexto | dlx/classes/roteador.classe.php:189 | under a string key array_merge gives the right-hand array's last value, else the left-hand one's |
| Roteador.Preencher | dlx/classes/roteador.classe.php:156-158 | one reserved key is filled from the configuration only when the URL did not give it; every other key is unchanged |
| Roteador.CompletarChaves | dlx/classes/roteador.classe.php:155-175 | the configuration fills aplicativo, modulo, controle, acao and params only where the URL did not give them |
| Roteador.SemAlvo | dlx/classes/roteador.classe.php:177-182 | the parameters passed on are entries of the parameters, none under aplicativo, modulo, controle or acao |
| Roteador.Montar | dlx/classes/roteador.classe.php:184-190 | the Controle takes aplicativo, modulo, controle and acao from the completed parameters (null when absent) and the rest as params |
| Roteador.MontarParams | dlx/classes/roteador.classe.php:189 | a string key of the 'params' entry overrides a parameter of the same name |
| Roteador.RotasDoMetodo | dlx/classes/roteador.classe.php:150-151 | an unknown request method has no routes to try |
| Roteador.Primeira | dlx/classes/roteador.classe.php:151-152 | the first route whose pattern matches, or none exactly when no route matches |
| Roteador.Resolver | dlx/classes/roteador.classe.php:139-199 | it throws 1404 exactly when the table is empty; with no matching route it is the ErroHTTP/mostrarErro 404 Controle, otherwise the Controle of the first match |
| Roteador.Roteador.constructor | dlx/classes/roteador.classe.php:68-70 | the routes are stored filtered by setRotas |
| Roteador.Roteador.SetRotas | dlx/classes/roteador.classe.php:56-58 | an array has every leaf turned into text; anything else becomes null |
| Roteador.Roteador.ObterRota | dlx/classes/roteador.classe.php:139-199 | the method answers Resolver for its table |
| Controle.NomePSR | dlx/classes/controle.classe.php:77-79 | the capitalised name never holds a blank |
| Controle.TrocarHifens | dlx/classes/controle.classe.php:78 | turning hyphens into blanks turns the hyphen-joined words into blank-joined words |
| Controle.NomePSRPalavras | dlx/classes/controle.classe.php:77-95 | hyphen-separated words are capitalised and concatenated ("painel-dlx" gives "PainelDlx") |
| Controle.NomeControle | dlx/classes/controle.classe.php:109-114 | the class name ends with "Controles\" and the name, and starts with the application and a backslash when an application is set |
| Controle.NomeControleModulo | dlx/classes/controle.classe.php:109-114 | without an application it is the module, "\Controles\" and the name |
| Controle.Argumentos | dlx/classes/controle.classe.php:214-218 | no more arguments are passed than the method has parameters |
| Controle.ArgumentosCompletos | dlx/classes/controle.classe.php:214-218 | when every parameter has an argument, one is passed per parameter, in parameter order |
| Controle.ArgumentosSoParametros | dlx/classes/controle.classe.php:214-218 | arguments under names that are not parameters play no part |
| Controle.ChamarMetodo | dlx/classes/controle.classe.php:205-222 | the loop passes exactly Argumentos: the args whose keys match parameter names, in parameter order |
| Controle.NomeVazio | dlx/classes/controle.classe.php:77-79 | a null application gives "" |
| Controle.NomeUmaPalavra | dlx/classes/controle.classe.php:93-95 | a capitalised word without hyphens is kept |
| Controle.AlvoErroModulo | dlx/classes/controle.classe.php:185-186 | the fallback has no application and the module "Comum" |
| Controle.AlvoErroControle | dlx/classes/controle.classe.php:187 | the fallback controller is Comum\Controles\ErroHTTP |
| Controle.AlvoErroAcao | dlx/classes/controle.classe.php:188-189 | the fallback action is mostrarErro, with params status_http "404" and pg_mestra "erro" |
| Controle.Controle.constructor | dlx/classes/controle.classe.php:157-163 | the five fields are set through their setters, in the constructor's order |
| Controle.Controle.Definir | dlx/classes/controle.classe.php:157-189 | the five setters in order, controle built from the new application and module |
| Controle.Controle.SetAplicativo | dlx/classes/controle.classe.php:77-79 | the application is the capitalised name; nothing else changes |
| Controle.Controle.SetModulo | dlx/classes/controle.classe.php:93-95 | the module is the capitalised name; nothing else changes |
| Controle.Controle.SetControle | dlx/classes/controle.classe.php:109-114 | the class name is built from the current application and module; nothing else changes |
| Controle.Controle.SetAcao | dlx/classes/controle.classe.php:128-130 | the action is sanitized, null when empty; nothing else changes |
| Controle.Controle.SetParams | dlx/classes/controle.classe.php:144-146 | an array has every leaf turned into text, anything else becomes null; nothing else changes |
| Controle.Controle.Executar | dlx/classes/controle.classe.php:173-193 | a valid target is kept; an invalid one is rewritten to the ErroHTTP fallback; the call happens exactly when the target is then valid, with the arguments chamarMetodo binds |
| Dlx.Consultar | dlx/dlx.classe.php:354-371 | no group and no name gives the whole configuration; a group alone gives its entry or null; a group and a name give the entry when the group is an array holding that name, and null otherwise |
| Dlx.GetSubstituir | dlx/dlx.classe.php:342-344 | after merging the first n replacement entries, each key holds its old value merged with its replacement |
| Dlx.ArrayReplaceRecursiveGet | dlx/dlx.classe.php:342-344 | array_replace_recursive key by key: a key without replacement keeps its value, an array given for an array is merged into it, any other given value replaces the old one |
| Dlx.ConfigGrupoMantido | dlx/dlx.classe.php:342-371 | a group the new configuration does not mention answers config() as before |
| Dlx.ConfigEntradaMesclada | dlx/dlx.classe.php:342-371 | a group given as an array is merged name by name into the old group |
| Dlx.Pulo | dlx/dlx.classe.php:470-478 | with a home, a string target, or the string params of an array target, gets "/-" in front; any other target is kept |
| Dlx.TabelaAdicionarEm | dlx/dlx.classe.php:455-484 | adding under one method leaves other methods' tables alone, changes nothing when the pattern exists and sobrepor is false, and otherwise puts the target under the pattern with %home% replaced |
| Dlx.RotaAdicionada | dlx/dlx.classe.php:465-481 | an existing pattern without sobrepor leaves the routes unchanged; otherwise the pattern with %home% replaced holds the target, with the jump when there is a home |
| Dlx.AdicionarEmMantem | dlx/dlx.classe.php:481 | adding a route never removes one |
| Dlx.AdicionarTodosRegistra | dlx/dlx.classe.php:456-461 | with a list of methods the route ends up registered under each of them |
| Dlx.AdicionarTodosOutros | dlx/dlx.classe.php:456-461 | methods not in the list keep their table |
| Dlx.ExcluirEmSo | dlx/dlx.classe.php:492-495 | excluirRota removes exactly that pattern of that method |
| Dlx.ExcluirTodosSo | dlx/dlx.classe.php:492-500 | with a list of methods the pattern is removed from each of them and nothing else changes |
| Dlx.UrlSemIndex | dlx/dlx.classe.php:246-248 | a URL without "index.php" is only sanitized |
| Dlx.UrlSemIndexInicial | dlx/dlx.classe.php:247 | a leading "index.php" is dropped and the rest is treated the same way |
| Dlx.ArquivoClasse | dlx/dlx.classe.php:381-406 | a class name of 4 backslash-separated parts always has a path, and one of neither 3 nor 4 parts never has |
| Dlx.ArquivoClasseQuatroPartes | dlx/dlx.classe.php:385-390 | App\Modulo\tipo\Nome maps to the lower-cased aplicativos/app/modulos/modulo/tipo/nome.tipo-without-final-s.php |
| Dlx.AutoloadClasses | dlx/dlx.classe.php:381-415 | a file is loaded only when it exists, and exactly when the derived path exists |
| Dlx.DLX.constructor | dlx/dlx.classe.php:271-276 | the application, environment and URL go through their setters; the configuration and routes start from their defaults |
| Dlx.DLX.SetAplicativo | dlx/dlx.classe.php:217-219 | the application is sanitized, null when empty; nothing else changes |
| Dlx.DLX.SetAmbiente | dlx/dlx.classe.php:231-233 | the environment is sanitized, null when empty; nothing else changes |
| Dlx.DLX.SetModuloAtual | dlx/dlx.classe.php:260-262 | the module is sanitized, null when empty; nothing else changes |
| Dlx.DLX.SetURL | dlx/dlx.classe.php:246-248 | the URL is sanitized and loses every "index.php"; nothing else changes |
| Dlx.DLX.AlterarConfiguracao | dlx/dlx.classe.php:342-344 | the configuration is replaced recursively by the new one; nothing else changes |
| Dlx.DLX.CarregarConfiguracao | dlx/dlx.classe.php:322-334 | a missing file throws 404 and changes nothing; otherwise a defined configuration is merged in |
| Dlx.DLX.AdicionarRotaEm | dlx/dlx.classe.php:463-482 | one method: the routes become AdicionarEm with the application's home; nothing else changes |
| Dlx.DLX.AdicionarRota | dlx/dlx.classe.php:455-484 | a list of methods: each is added in order; nothing else changes |
| Dlx.DLX.ExcluirRota | dlx/dlx.classe.php:492-500 | the pattern is removed from each method given; nothing else changes |
| Dlx.DLX.Executar | dlx/dlx.classe.php:307-314 | the controller executar resolves is the router's answer for the URL over the route table |
| Visao.ArmazenarMembros | dlx/classes/visao.classe.php:363-365 | on a key-sorted template list, storing (k, v) leaves exactly (k, v) plus every old entry under another key |
| Visao.ArmazenarCrescente | dlx/classes/visao.classe.php:363-365 | storing under a key followed by ksort keeps the template list sorted by key |
| Visao.ArmazenarAbaixo | dlx/classes/visao.classe.php:363-365 | after storing under k every key lies below the next free key, raised past k when k reaches it |
| Visao.Localizar | dlx/classes/visao.classe.php:347-361 | the template path found exists; the template's own path wins when it exists; without searching a missing path gives none |
| Visao.SemTemplate | dlx/classes/visao.classe.php:374-380 | an entry survives removerTemplate exactly when it was there and its path is not selected by "~{template}.phtml~" |
| Visao.SemTemplateOrdem | dlx/classes/visao.classe.php:374-380 | removing templates keeps the list key-sorted and every key below the next free one |
| Visao.AdicionarValorPos | dlx/classes/visao.classe.php:400-441 | the insertion the two methods document: exactly the new file is added; with no position it goes last, with a position inside the list it lands there and the rest shift one place |
| Visao.PrimeiroIndice | dlx/classes/visao.classe.php:422-450 | array_search: none exactly when the value is absent, else the index of its first occurrence |
| Visao.RemoverPrimeiro | dlx/classes/visao.classe.php:421-454 | a missing file changes nothing; a present one loses exactly its first occurrence, the rest stays in order |
| Visao.Prefixar | dlx/classes/visao.classe.php:501-511 | every theme file gets the relative directory prefixed, one for one |
| Visao.Externos | dlx/classes/visao.classe.php:469-490 | no file gives no markup; otherwise the CSS block comes first and the JS block last |
| Visao.Emitir | dlx/classes/visao.classe.php:471-489 | the loop over one list builds the opening marker, one tag per file in order and the closing marker, or nothing for an empty list |
| Visao.ValorParam | dlx/classes/visao.classe.php:534-536 | an integer is stored as its text under FILTER_DEFAULT; every other value is stored unchanged |
| Visao.ObterParams | dlx/classes/visao.classe.php:568-582 | no name gives every parameter; a stored name gives its value; an unknown name gives the warning paragraph naming it |
| Visao.ParamAdicionado | dlx/classes/visao.classe.php:531-582 | a parameter added under a plain name reads back as the stored value, and every other name reads as before |
| Visao.ParamsIniciaisAdicionados | dlx/classes/visao.classe.php:200-210 | the constructor's parameters are the two adicionarParam calls for 'config-aplicativo' and 'diretorio-relativo' |
| Visao.ChaveConstante | dlx/classes/visao.classe.php:208-594 | the view's own parameter names sanitize to themselves |
| Visao.TituloDefinido | dlx/classes/visao.classe.php:590-595 | after tituloPagina, 'tag-title' and 'html:titulo-pagina' both read back as the sanitized title |
| Visao.CapturaLinha | dlx/classes/visao.classe.php:235 | a name captured from a line is non-empty and its placeholder "[name/]" occurs in the line |
| Visao.CapturasLinhasOrigem | dlx/classes/visao.classe.php:235 | every area name found is non-empty and is the capture of one line of the master page |
| Visao.CapturaSemQuebra | dlx/classes/visao.classe.php:235 | a captured name never crosses a newline |
| Visao.CapturaMarcador | dlx/classes/visao.classe.php:235 | the line "[name/]" captures exactly name |
| Visao.CapturasPagina | dlx/classes/visao.classe.php:230-238 | a master page with one placeholder per line gives back exactly those area names, in order |
| Visao.SubstituicaoSemMarcador | dlx/classes/visao.classe.php:624-628 | a master page without '[' is shown unchanged whatever the areas |
| Visao.SubstituicaoUmaArea | dlx/classes/visao.classe.php:624-628 | the placeholder of a single area is replaced by that area's block of the templates and the rest of the page stays |
| Visao.SubstituirAreas | dlx/classes/visao.classe.php:624-628 | the replacement loop computes one str_replace per area, in the order of the area list |
| Visao.Visao.constructor | dlx/classes/visao.classe.php:200-210 | a new view has the default areas, no template and no asset, and the default parameters plus the application settings and relative directory |
| Visao.Visao.AdicionarAreaLayout | dlx/classes/visao.classe.php:219-224 | a valid area name, or null for an invalid one, goes at the end of the area list; nothing else changes |
| Visao.Visao.CarregarPaginaMestra | dlx/classes/visao.classe.php:230-274 | the master page is stored; the area list becomes the placeholders found, or stays when none is found |
| Visao.Visao.AdicionarTemplate | dlx/classes/visao.classe.php:346-366 | a template not found throws 1404 unless optional (then nothing changes); a found one is stored under ordem, key-sorted, or appended under the next key; the list stays key-sorted |
| Visao.Visao.RemoverTemplate | dlx/classes/visao.classe.php:374-380 | the template list loses exactly the entries whose path the name selects and stays key-sorted |
| Visao.Visao.AdicionarJS | dlx/classes/visao.classe.php:436-441 | as written: a file already listed succeeds and changes nothing; any other file raises the undefined-method Error for Vetores::adicionarValorPos |
| Visao.Visao.AdicionarJSCorrigido | dlx/classes/visao.classe.php:428-441 | as intended: a JS file not yet listed is inserted, prefixed, at its position; a listed one changes nothing; every other field stays |
| Visao.Visao.AdicionarCSS | dlx/classes/visao.classe.php:408-413 | as written: a file already in the CSS list succeeds and changes nothing; any other file raises the undefined-method Error for Vetores::adicionarValorPos |
| Visao.Visao.AdicionarCSSCorrigido | dlx/classes/visao.classe.php:400-413 | as intended: a CSS file not yet listed joins the CSS list, prefixed, at its position, and the JS list stays |
| Visao.Visao.RemoverJS | dlx/classes/visao.classe.php:449-454 | the first occurrence of the JS file leaves the list, nothing else changes |
| Visao.Visao.RemoverCSS | dlx/classes/visao.classe.php:421-426 | the first occurrence of the CSS file leaves the list, nothing else changes |
| Visao.Visao.CarregarArquivosTema | dlx/classes/visao.classe.php:499-512 | the theme's CSS and JS files, prefixed, are appended to the two lists |
| Visao.Visao.AdicionarParam | dlx/classes/visao.classe.php:531-537 | the sanitized name now holds the filtered value; the other state stays |
| Visao.Visao.TituloPagina | dlx/classes/visao.classe.php:590-595 | the sanitized title is stored under both title names |
| Visao.Visao.CarregarArquivosExternos | dlx/classes/visao.classe.php:469-490 | the CSS block and then the JS block are appended to the external-files markup |
| Visao.Visao.MostrarConteudo | dlx/classes/visao.classe.php:604-635 | the theme files are added and missing parts loaded once; the page is empty unless master page and templates are non-empty, else every area placeholder is replaced by that area of templates plus external files |
| Visao.Seq2Opt | dlx/classes/visao.classe.php:236 | the captured names become the area list one for one |
| VisaoAjudante.ProcurarSpec | dlx/ajudantes/visao.ajudante.php:53 | the search finds the first occurrence at or after the start, and none exactly when there is none |
| VisaoAjudante.BlocosEnvolvidos | dlx/ajudantes/visao.ajudante.php:49-57 | every block extracted lies between an opening and a closing tag of the area and holds no closing tag |
| VisaoAjudante.BlocoEntreTags | dlx/ajudantes/visao.ajudante.php:49-57 | the first block is enclosed by the area's tags and does not contain the closing tag (the lazy match) |
| VisaoAjudante.ExtrairAreaLayout | dlx/ajudantes/visao.ajudante.php:49-57 | content without the area's opening tag gives the empty string |
| VisaoAjudante.ExtrairUmBloco | dlx/ajudantes/visao.ajudante.php:49-57 | content with one block of the area, and no other tag, gives exactly that block |
| VisaoAjudante.DiretorioRelativo | dlx/ajudantes/visao.ajudante.php:92-104 | the prefix is one "../" per non-empty segment of the home path |
| VisaoAjudante.DiretorioRelativoConcat | dlx/ajudantes/visao.ajudante.php:92-104 | the prefix of a path joined by '/' is the prefixes of the two parts in sequence |
| VisaoAjudante.DiretorioRelativoSegmento | dlx/ajudantes/visao.ajudante.php:92-104 | one segment gives "../" unless it is empty |
| VisaoAjudante.IdentificarBaseHTML | dlx/ajudantes/visao.ajudante.php:65-68 | the base is the document root followed by the home path |
| VisaoAjudante.Gravar | dlx/ajudantes/visao.ajudante.php:116-120 | after recording, the triple (domain, language, text) gives the translation and every other triple reads as before |
| VisaoAjudante.Traduzir | dlx/ajudantes/visao.ajudante.php:133-147 | a text without translation comes back unchanged; a different result is a stored non-empty translation |
| VisaoAjudante.TraducaoGravada | dlx/ajudantes/visao.ajudante.php:116-147 | a recorded translation is used for its triple (the text itself when the translation is empty); other triples translate as before |
| VisaoAjudante.Idiomas.constructor | dlx/ajudantes/visao.ajudante.php:116-120 | the translation table starts empty |
| VisaoAjudante.Idiomas.AdicionarTraducao | dlx/ajudantes/visao.ajudante.php:116-120 | a language code of the form xx_XX records the translation; any other code changes nothing |
| VisaoAjudante.Idiomas.TraduzirTexto | dlx/ajudantes/visao.ajudante.php:133-147 | the given language is used when non-empty, else the session's |
| ModeloRegistro.Filtrado | _auto/modelos/basemodeloregistro.modelo.php:128-149 | a table name or prefix that is empty is stored as null; a non-empty one is stored as given |
| ModeloRegistro.CondicoesUK | _auto/modelos/basemodeloregistro.modelo.php:285-287 | one condition "{prefix}{column} = {exported value}" per UK column, in order |
| ModeloRegistro.ParaPropriedades | _auto/modelos/basemodeloregistro.modelo.php:295-298 | each fetched column goes into the property named by the column without the prefix, one for one |
| ModeloRegistro.Combinar | _auto/modelos/basemodeloregistro.modelo.php:353-354 | array_combine pairs the i-th PK column with the i-th value |
| ModeloRegistro.ParesExcluir | _auto/modelos/basemodeloregistro.modelo.php:580-584 | excluir binds ':column' to the property of each primary-key column, in PK order |
| ModeloRegistro.Registro.constructor | _auto/modelos/basemodeloregistro.modelo.php:232-240 | a new record is empty, keeps the filtered table and prefix and the insert_pk flag, and its default list selects the rows whose delete column is 0 |
| ModeloRegistro.Registro.SelecionarUK | _auto/modelos/basemodeloregistro.modelo.php:282-332 | the SELECT by the given columns is sent; the answer is whether a row came back; a row is loaded into the properties and marks the record loaded, no row marks it empty |
| ModeloRegistro.Registro.SelecionarPK | _auto/modelos/basemodeloregistro.modelo.php:345-359 | no values answers true and changes nothing; a number of values other than the PK's answers false and changes nothing; otherwise it is selecionarUK by the PK columns paired with the values |
| ModeloRegistro.Registro.ObterValorPK | _auto/modelos/basemodeloregistro.modelo.php:368-385 | the PK columns mapped to their properties (with a table), the record's id under ':id' otherwise |
| ModeloRegistro.ValorPKGet | _auto/modelos/basemodeloregistro.modelo.php:371-378 | with a table, obterValorPK maps exactly the PK names, each to its property |
| ModeloRegistro.Registro.Salvar | _auto/modelos/basemodeloregistro.modelo.php:529-562 | a table the database does not have throws 1404 and nothing changes; otherwise, unexecuted, the statement and bound data are returned and nothing changes; a failed execution throws 1500; an INSERT stores and returns the new id; an UPDATE returns the id |
| ModeloRegistro.Registro.Excluir | _auto/modelos/basemodeloregistro.modelo.php:573-607 | an empty record throws 1403; unexecuted, the DELETE by PK and its data are returned; a refused DELETE marks the record deleted and saves the PK and delete columns; the answer is false on failure, the PK values on success |
| ModeloRegistro.MontarExcluir | _auto/modelos/basemodeloregistro.modelo.php:577-590 | the DELETE built is the table's DELETE with one "col = :col" condition per PK column, and its data bind each ':col' |
| ModeloRegistro.PrepararSalvar | _auto/modelos/basemodeloregistro.modelo.php:530-532 | a missing table throws 1404; otherwise salvar's statement, which is an INSERT exactly when the record is empty |
| ModeloRegistro.SalvarEscolhe | _auto/modelos/basemodeloregistro.modelo.php:530-532 | the statement of salvar starts with INSERT if and only if the record is empty |
| ModeloRegistro.VincularDados | _auto/modelos/basemodeloregistro.modelo.php:534-543 | the loop fills the bound data exactly as the specification of the bindings says |
| ModeloRegistro.VinculadosPasso | _auto/modelos/basemodeloregistro.modelo.php:534-543 | one more column binds its property when that property exists, and adds nothing otherwise |
| ModeloRegistro.VinculadosUltimo | _auto/modelos/basemodeloregistro.modelo.php:534-543 | ':c' is bound, last occurrence winning, to c's property exactly when c is selected and the property exists |
| ModeloRegistro.DadosSalvarColuna | _auto/modelos/basemodeloregistro.modelo.php:534-543 | in salvar's data, ':c' holds c's property when it exists and is absent otherwise |
| ModeloRegistro.SelectUK | _auto/modelos/basemodeloregistro.modelo.php:283-289 | the statement of selecionarUK is the table's SELECT with the UK conditions joined by AND |
| ModeloRegistro.SqlComWhere | dlx/classes/construtorsql.classe.php:121-175 | a SELECT built with conditions added by AND renders as the query followed by its WHERE part |
| ModeloRegistro.ListaPadraoSql | _auto/modelos/basemodeloregistro.modelo.php:239 | the default list renders as "SELECT __CAMPOS__ FROM {table} WHERE  {prefix}delete = 0" |
| ModeloRegistro.CarregadoColuna | _auto/modelos/basemodeloregistro.modelo.php:295-298 | a column whose property name no other column shares is loaded with its value |
| ModeloRegistro.CarregadoResto | _auto/modelos/basemodeloregistro.modelo.php:295-298 | a property no column names keeps its value after loading a row |
| ModeloRegistro.QtdeRegistrosAditiva | _auto/modelos/basemodeloregistro.modelo.php:508-512 | the count of a result is the sum of the counts of its parts |
| ModeloRegistro.QtdeRegistrosUma | _auto/modelos/basemodeloregistro.modelo.php:508-512 | a single row counts what its QTDE column says; a failed listing counts 0 |
| ModeloRegistro.NaPosicaoLista | _auto/modelos/basemodeloregistro.modelo.php:465-467 | on rows numbered from 0, posicao -1 is the last row, -n the first, and p >= 0 the p-th |
| ModeloRegistro.ResultadoListar | _auto/modelos/basemodeloregistro.modelo.php:459-467 | a failed query gives false; a posicao with some rows gives that row; otherwise every row, in order, without its MSSQL_LINHA column |
| Calendario.TotalDias | dlx/ajudantes/calendario.ajudante.php:149-151 | a Gregorian month has 28 to 31 days: February 29 exactly in a leap year and 28 otherwise, April, June, September and November 30, the other months 31 |
| Calendario.DiasDoAno | dlx/ajudantes/calendario.ajudante.php:149-151 | the twelve months add up to 366 days in a leap year and 365 otherwise |
| Calendario.DiasDoMes | dlx/ajudantes/calendario.ajudante.php:149-151 | the days of a month are 1 to its length, in order |
| Calendario.MesesDoAno | dlx/ajudantes/calendario.ajudante.php:160-168 | the loop gives the keys 1 to 12 in order, each holding the days of its month |
| Calendario.AbreviacoesMeses | dlx/ajudantes/calendario.ajudante.php:84-97 | there are twelve months and each abbreviation is the first three letters of the month's name |
| Calendario.AbreviacoesDias | dlx/ajudantes/calendario.ajudante.php:74-82 | there are seven weekdays and each abbreviation is the first three letters of the day's name |
| Calendario.MesPorExtenso | dlx/ajudantes/calendario.ajudante.php:203-206 | a month has a name exactly when it lies in 1..12; its abbreviation is the first three letters of the full name |
| Calendario.DiaDaSemanaPorExtenso | dlx/ajudantes/calendario.ajudante.php:192-194 | the abbreviated weekday is three letters long and begins the full name |
| Calendario.Anexar | dlx/ajudantes/calendario.ajudante.php:230-234 | the event is appended to the events of its date, and every other date keeps its events |
| Calendario.Calendario.constructor | dlx/ajudantes/calendario.ajudante.php:135-139 | the month, year and day go through their setters, and there are no events yet |
| Calendario.Calendario.SetDia | dlx/ajudantes/calendario.ajudante.php:104-108 | a day in 1..31 is stored, anything else stores today's day |
| Calendario.Calendario.SetMes | dlx/ajudantes/calendario.ajudante.php:114-118 | a month in 1..12 is stored, anything else stores today's month |
| Calendario.Calendario.SetAno | dlx/ajudantes/calendario.ajudante.php:124-126 | an integer year is stored, anything else stores null |
| Calendario.Calendario.AdicionarEvento | dlx/ajudantes/calendario.ajudante.php:226-235 | resgatarEventos of the date gains the event at its end; every other date answers as before |
| Calendario.Semana | dlx/ajudantes/calendario.ajudante.php:287-321 | one pass of the weekday loop writes seven cells: blanks before day 1's column and after the last day, otherwise consecutive days with their events |
| Calendario.ColunaPasso | dlx/ajudantes/calendario.ajudante.php:292-297 | the loop's blank test holds exactly when the cell's day falls outside the month; otherwise the cell shows that day |
| Calendario.FaltamDias | dlx/ajudantes/calendario.ajudante.php:285 | another row is written exactly while some day of the month is still unwritten |
| Calendario.Grade | dlx/ajudantes/calendario.ajudante.php:285-322 | the while loop writes enough 7-cell rows for the leading blanks and every day, each cell holding its expected day or a blank, and their HTML |
| Calendario.AchatarIndice | dlx/ajudantes/calendario.ajudante.php:285-322 | reading the grid row by row puts row k, column c at position 7k + c |
| Calendario.GradeListaOsDias | dlx/ajudantes/calendario.ajudante.php:253-328 | the month grid, read row by row, lists every day of the month exactly once, in ascending order |
| Calendario.Calendario.GerarCalendarioMes | dlx/ajudantes/calendario.ajudante.php:253-328 | the calendar is the caption and weekday header followed by the grid's rows, day 1 in the column before its weekday (Sunday: the first column) |
| ClasseConstrutorSql.Itens | dlx/classes/construtorsql.classe.php:287-377 | the (array) cast makes one string a one-item list and keeps a list as it is |
| ClasseConstrutorSql.Anexados | dlx/classes/construtorsql.classe.php:285-293 | appending items to a clause list keeps the old entries in front and adds exactly one entry per item |
| ClasseConstrutorSql.AnexadosEntrada | dlx/classes/construtorsql.classe.php:285-293 | the entry of the i-th item depends only on the item and the number of entries before it |
| ClasseConstrutorSql.ConectorEntrada | dlx/classes/construtorsql.classe.php:288 | a condition gets the validated AND/OR in front unless it is the first entry of the list, then a blank |
| ClasseConstrutorSql.AnexarCondicoes | dlx/classes/construtorsql.classe.php:287-310 | the callback of where and having appends one connector-prefixed condition per item, in order |
| ClasseConstrutorSql.AnexarOrdenacoes | dlx/classes/construtorsql.classe.php:377-379 | the callback of orderBy appends "item DIRECTION", trimmed, per item, in order |
| ClasseConstrutorSql.ChavesTexto | dlx/classes/construtorsql.classe.php:125 | the column names of an INSERT are the keys of its values, one for one |
| ClasseConstrutorSql.ValoresTexto | dlx/classes/construtorsql.classe.php:137 | the values of an INSERT row are written one for one, in order |
| ClasseConstrutorSql.Tuplas | dlx/classes/construtorsql.classe.php:129-135 | a multiple INSERT gives one parenthesised row per entry, in order |
| ClasseConstrutorSql.Parte | dlx/classes/construtorsql.classe.php:142-172 | a clause with no entry adds nothing; one with entries starts with its heading |
| ClasseConstrutorSql.ConstrutorSQL.constructor | dlx/classes/construtorsql.classe.php:115-118 | a new builder has no query, every clause list empty and the given var_export flag |
| ClasseConstrutorSql.ConstrutorSQL.Clone | dlx/classes/construtorsql.classe.php:196-264 | PHP's clone copies every field |
| ClasseConstrutorSql.ConstrutorSQL.Insert | dlx/classes/construtorsql.classe.php:192-200 | a table the database does not have throws tabelaExiste's 1404 naming it and nothing changes; otherwise the builder records the table and a fresh copy of it gets the query "INSERT INTO table" |
| ClasseConstrutorSql.ConstrutorSQL.Select | dlx/classes/construtorsql.classe.php:215-223 | a missing table throws 1404 and nothing changes; otherwise the builder records the table and a fresh copy gets "SELECT fields FROM table" with the alias |
| ClasseConstrutorSql.ConstrutorSQL.Update | dlx/classes/construtorsql.classe.php:239-247 | a missing table throws 1404 and nothing changes; otherwise the builder records the table and a fresh copy gets "UPDATE table SET" |
| ClasseConstrutorSql.ConstrutorSQL.Delete | dlx/classes/construtorsql.classe.php:260-268 | a missing table throws 1404 and nothing changes; otherwise the builder records the table and a fresh copy gets "DELETE FROM table" |
| ClasseConstrutorSql.ConstrutorSQL.Where | dlx/classes/construtorsql.classe.php:285-293 | on a SELECT, UPDATE or DELETE the conditions are appended to WHERE; otherwise, and for every other field, nothing changes |
| ClasseConstrutorSql.ConstrutorSQL.Having | dlx/classes/construtorsql.classe.php:306-314 | only on a SELECT the conditions are appended to HAVING; nothing else changes |
| ClasseConstrutorSql.ConstrutorSQL.Join | dlx/classes/construtorsql.classe.php:329-342 | only on a SELECT: a joined table the database does not have throws 1404, otherwise one "TYPE JOIN table alias ON on" entry is appended; nothing else changes |
| ClasseConstrutorSql.ConstrutorSQL.GroupBy | dlx/classes/construtorsql.classe.php:354-362 | only on a SELECT and with a non-empty argument the items are appended to GROUP BY |
| ClasseConstrutorSql.ConstrutorSQL.OrderBy | dlx/classes/construtorsql.classe.php:375-383 | only on a SELECT one ordering entry per item is appended |
| ClasseConstrutorSql.ConstrutorSQL.Into | dlx/classes/construtorsql.classe.php:401-411 | only on an INSERT: the first field, in the order the mapping reaches them, missing from the table's description throws campoExiste's 1404 and nothing changes; otherwise the (exported) values are added by array union, keeping a column already present |
| ClasseConstrutorSql.CamposExistem | dlx/classes/construtorsql.classe.php:403-404 | every field passes campoExiste, or the answer is the 1404 of the first field that does not |
| ClasseConstrutorSql.IntoColuna | dlx/classes/construtorsql.classe.php:403-407 | after into, a column already given keeps its value and a new one holds its value, exported when var_export is set |
| ClasseConstrutorSql.ExportarChaves | dlx/classes/construtorsql.classe.php:403-407 | exporting the values keeps the keys of the given array distinct |
| ClasseConstrutorSql.ConstrutorSQL.Set | dlx/classes/construtorsql.classe.php:425-434 | only on an UPDATE: a field missing from the table's description throws 1404 and nothing changes; otherwise one "field = value" entry is appended, the value quoted when var_export is set |
| ClasseConstrutorSql.ConstrutorSQL.ToString | dlx/classes/construtorsql.classe.php:121-175 | the rendering loop builds the query then INSERT values, JOIN, SET, WHERE, GROUP BY, HAVING and ORDER BY, each only when non-empty |
| ClasseConstrutorSql.SqlPorPartes | dlx/classes/construtorsql.classe.php:121-175 | appending the seven parts in order gives the rendered SQL |
| ClasseConstrutorSql.TextoInsert | dlx/classes/construtorsql.classe.php:124-139 | the loop over the rows builds the column list and VALUES part, nothing when there are no values |
| ClasseConstrutorSql.AnexarClausula | dlx/classes/construtorsql.classe.php:142-172 | a clause is appended with its heading and separator exactly when it has entries |
| ClasseConstrutorSql.SqlSoConsulta | dlx/classes/construtorsql.classe.php:121-175 | a builder without clauses renders as its query alone |
| ClasseConstrutorSql.SqlWhereAnd | dlx/classes/construtorsql.classe.php:121-293 | a query whose conditions were all added with AND renders as the query, " WHERE  " and the conditions joined by " AND " |
| ControleRegistro.UrlPk | _auto/controles/basecontroleregistro.controle.php:64-73 | "/:id" without a table; with one, "/:" before the key fields joined by "/:", or null when the table has no key field |
| ControleRegistro.UrlPkUnica | _auto/controles/basecontroleregistro.controle.php:70-71 | a single key field gives the one placeholder "/:field" |
| ControleRegistro.BaseControleRegistro.constructor | _auto/controles/basecontroleregistro.controle.php:62-84 | every record URL is null until gerarURLs runs |
| ControleRegistro.BaseControleRegistro.GerarURLs | _auto/controles/basecontroleregistro.controle.php:62-84 | the list URL is the base; details and editing append their segment and the key part; new and delete append their segment |
| ControleRegistro.Pk2UrlSemMarcador | _auto/controles/basecontroleregistro.controle.php:92-99 | a URL without ':' comes back unchanged |
| ControleRegistro.ReplaceUnico | _auto/controles/basecontroleregistro.controle.php:94-98 | a placeholder met once, after a text without ':', is replaced there and nowhere else |
| ControleRegistro.Pk2UrlPrefixo | _auto/controles/basecontroleregistro.controle.php:94-98 | with key fields k and k+x in that order, ":k" is replaced inside ":kx" first, so the value of k is followed by x |
| ControleRegistro.UrlDoRegistro | _auto/controles/basecontroleregistro.controle.php:62-99 | the details or edit URL of a table with one key field, filled by PK2URL, is the base URL, "/" and the key value |
| ControleRegistro.UrlDoRegistroSemTabela | _auto/controles/basecontroleregistro.controle.php:62-99 | without a table obterValorPK keys the id ':id', so PK2URL looks for "::id" and the placeholder ":id" stays in the URL unfilled |
| ControleRegistro.ValoresPK | _auto/controles/basecontroleregistro.controle.php:107 | array_intersect_key keeps exactly the POST entries named after a key field, with their posted values |
| ControleRegistro.SelecaoPKNenhuma | _auto/controles/basecontroleregistro.controle.php:107-111 | no record is selected exactly when no key field was posted |
| ControleRegistro.CarregarPost | _auto/controles/basecontroleregistro.controle.php:105-114 | the posted key fields select the record when there are some, then the POST is loaded into the model as post2Objeto does |
| ControleRegistro.Selecionar | _auto/modelos/basemodeloregistro.modelo.php:345-359 | a null id or a key of other than one column keeps the loaded record; otherwise the record is loaded exactly when the id selects a row, and the model is left empty when it does not |
| ControleRegistro.Carregados | _auto/controles/basecontroleregistro.controle.php:139-142 | one record per id, each the selection of that id applied to the record the previous selection left |
| ControleRegistro.IdNuloRepete | _auto/controles/basecontroleregistro.controle.php:139-142 | a null id leaves the previous id's record loaded, so the method runs on it again |
| ControleRegistro.IdAusenteEsvazia | _auto/controles/basecontroleregistro.controle.php:139-142 | an id that selects no row leaves the model empty, whatever was loaded before |
| ControleRegistro.Resultados | _auto/controles/basecontroleregistro.controle.php:139-142 | the batch succeeds exactly when the model's method succeeds on every id, with one answer per id in order |
| ControleRegistro.ResultadosPrimeiraFalha | _auto/controles/basecontroleregistro.controle.php:139-142 | the exception that ends a batch is that of the first id whose call throws |
| ControleRegistro.ResultadosPrefixo | _auto/controles/basecontroleregistro.controle.php:139-142 | a batch that throws on a prefix of the ids throws the same for all of them |
| ControleRegistro.ExecutarLote | _auto/controles/basecontroleregistro.controle.php:127-145 | no id throws 1404; otherwise total is the number of ids and modificados holds one answer per id, in order, unless a call throws |
| ControleRegistro.MensagemPara | _auto/controles/basecontroleregistro.controle.php:595-605 | the error message is chosen exactly when the count is zero; the answers are sent back as 'ids' |
| ControleRegistro.MensagemExcluirComoEscrito | _auto/controles/basecontroleregistro.controle.php:593-605 | as written: the error message only for an empty answer list, whatever the answers say |
| ControleRegistro.Excluidos | _auto/controles/basecontroleregistro.controle.php:593-605 | the count of deleted records is at most the number of answers, zero exactly when every answer is empty, and all exactly when none is |
| ControleRegistro.MensagemExcluir | _auto/controles/basecontroleregistro.controle.php:591-606 | as intended: the error message exactly when no deletion succeeded; otherwise the count message counts only the successful ones |
| ControleRegistro.ExcluirFalhaComoSucesso | _auto/controles/basecontroleregistro.controle.php:593-605 | a batch in which every deletion answered false is announced as a success as written and as an error once corrected |
| ControleRegistro.MensagemExcluirConcorda | _auto/controles/basecontroleregistro.controle.php:593-605 | when every deletion succeeded, the corrected message is the one the code writes |
| ControleRegistro.Excluir | _auto/controles/basecontroleregistro.controle.php:591-606 | as written: no id throws 1404; an exception of the model ends it; otherwise the message the code writes, counting every answer |
| ControleRegistro.ExcluirCorrigido | _auto/controles/basecontroleregistro.controle.php:591-606 | as intended: no id throws 1404; an exception of the model ends it; otherwise the message that counts only the successful deletions |
| ControleRegistro.OpcoesPadrao | _auto/controles/basecontroleregistro.controle.php:224-235 | without authentication every option is on; with it and no session every option is off; an option on needs the permissions behind it |
| ControleRegistro.OpcoesMonotonas | _auto/controles/basecontroleregistro.controle.php:228-235 | more permissions never hide an option |
| ControleRegistro.OpcoesTodas | _auto/controles/basecontroleregistro.controle.php:228-235 | with a session and every permission every option is offered |
| ControleRegistro.TotalPaginas | _auto/controles/basecontroleregistro.controle.php:203 | 0 without a page size; otherwise the least number of pages of that size that hold every record |
| ControleRegistro.Casamento | _auto/controles/basecontroleregistro.controle.php:306 | a matching term is a valid field name, ':' and a valid value |
| ControleRegistro.CasamentoDe | _auto/controles/basecontroleregistro.controle.php:306 | every "field:value" of the allowed characters matches, with that field and that value |
| ControleRegistro.ValorLike | _auto/controles/basecontroleregistro.controle.php:308 | an all-digit value is compared as it is; any other is trimmed and wrapped in '%' |
| ControleRegistro.ClausulaDe | _auto/controles/basecontroleregistro.controle.php:306-309 | a well-formed term becomes "`field` LIKE 'pattern'", in WHERE exactly when the table has the field |
| ControleRegistro.ClausulaMalformada | _auto/controles/basecontroleregistro.controle.php:310-311 | a term without ':' adds "()" to WHERE |
| ControleRegistro.Reparte | _auto/controles/basecontroleregistro.controle.php:305-313 | every condition goes to exactly one of WHERE and HAVING |
| ControleRegistro.Clausulas | _auto/controles/basecontroleregistro.controle.php:305-313 | one condition per term, in order |
| ControleRegistro.ReparteSoOnde | _auto/controles/basecontroleregistro.controle.php:305-313 | when every condition goes to WHERE, HAVING stays empty and WHERE holds them all, in order |
| ControleRegistro.FiltroSoOnde | _auto/controles/basecontroleregistro.controle.php:305-313 | when every term belongs to WHERE, HAVING stays empty and WHERE lists the terms' conditions in order |
| ControleRegistro.ParamsFiltro | _auto/controles/basecontroleregistro.controle.php:300-319 | an empty 'termo' gives no condition; otherwise the comma-separated terms give their conditions, at least one |
| ControleRegistro.FiltrarTermos | _auto/controles/basecontroleregistro.controle.php:305-313 | the loop over the terms computes exactly the split of their conditions |
| CriarSql.ParaInsert | dlx/ajudantes/construtorsql.ajudante.php:121-123 | a column is kept exactly when it is in the input and is either not a primary key or primary keys are to be inserted |
| CriarSql.ParaInsertDistinto | dlx/ajudantes/construtorsql.ajudante.php:121-123 | leaving out the primary key keeps the column names distinct |
| CriarSql.Nomes | dlx/ajudantes/construtorsql.ajudante.php:121-123 | array_column gives one name per column, in order |
| CriarSql.Marcadores | dlx/ajudantes/construtorsql.ajudante.php:129-131 | one placeholder ":name" per column name, in order |
| CriarSql.Pares | dlx/ajudantes/construtorsql.ajudante.php:127-132 | array_combine pairs each column name with its placeholder, in order |
| CriarSql.Atribuicoes | dlx/ajudantes/construtorsql.ajudante.php:157-161 | the SET assignments are at most one per column |
| CriarSql.CondicoesPk | dlx/ajudantes/construtorsql.ajudante.php:157-161 | the WHERE conditions are at most one per column |
| CriarSql.AtribuicoesPasso | dlx/ajudantes/construtorsql.ajudante.php:157-161 | each further column adds its binding to WHERE when it is a primary key and to SET otherwise |
| CriarSql.NomesUnicos | dlx/ajudantes/construtorsql.ajudante.php:127-132 | the combined array has no repeated key when the column names are distinct |
| CriarSql.ParesPlanos | dlx/ajudantes/construtorsql.ajudante.php:127-132 | the placeholders are scalars, so into() keeps them as they are and sees no nested array |
| CriarSql.ParesTexto | dlx/ajudantes/construtorsql.ajudante.php:127-132 | the keys of the combined array are the column names and its values the placeholders |
| CriarSql.ComecaInsert | dlx/ajudantes/construtorsql.ajudante.php:127 | insert() starts an INSERT statement on the table |
| CriarSql.ComecaUpdate | dlx/ajudantes/construtorsql.ajudante.php:155 | update() starts an UPDATE statement that accepts WHERE |
| CriarSql.InsertRenderizado | dlx/ajudantes/construtorsql.ajudante.php:127-137 | the builder after insert()->into() renders as "INSERT INTO table (names) VALUES (placeholders)" |
| CriarSql.CriarInsert | dlx/ajudantes/construtorsql.ajudante.php:120-140 | a missing table throws insert's 1404; otherwise 'campos' are the names of the filtered, admissible columns and 'query' is the INSERT over them |
| CriarSql.CamposDaDescricao | dlx/ajudantes/construtorsql.ajudante.php:121-134 | every column criarInsert binds is in the table's description, so into's field checks pass |
| CriarSql.FiltroDistinto | dlx/ajudantes/construtorsql.ajudante.php:100-107 | filtering a table description keeps its column names distinct |
| CriarSql.PassoWhere | dlx/ajudantes/construtorsql.ajudante.php:158-159 | a primary-key column adds "name = :name" to WHERE, joined with AND |
| CriarSql.PassoSet | dlx/ajudantes/construtorsql.ajudante.php:158-160 | any other column adds "name = :name" to SET |
| CriarSql.UpdateRenderizado | dlx/ajudantes/construtorsql.ajudante.php:154-166 | the builder after the loop renders as UpdateSql: every non-key assignment in SET, every key condition in WHERE, in column order |
| CriarSql.CriarUpdate | dlx/ajudantes/construtorsql.ajudante.php:152-167 | a missing table throws update's 1404; otherwise 'campos' are the filtered columns and 'query' the UPDATE over them |
| HTMLForm.HtmlRotulo | dlx/ajudantes/htmlform.ajudante.php:350-352 | no label exactly when there is no text; otherwise a label pointing at the id and ending in the text and ':' |
| HTMLForm.HtmlDica | dlx/ajudantes/htmlform.ajudante.php:362-364 | no hint exactly when there is no text; otherwise the hint's span around the text |
| HTMLForm.AtributosCampoGet | dlx/ajudantes/htmlform.ajudante.php:127-129 | the field's name is the caller's, its id the configured prefix followed by the caller's id, and any other attribute the caller's or else the configuration's |
| HTMLForm.IdCampoPrefixo | dlx/ajudantes/htmlform.ajudante.php:127-129 | unless the caller overrides it, the id is the configured prefix followed by the caller's id |
| HTMLForm.AtributosGeralGet | dlx/ajudantes/htmlform.ajudante.php:127-133 | a given value becomes the 'value' attribute; every other attribute is the field's |
| HTMLForm.AtributosCaixaGet | dlx/ajudantes/htmlform.ajudante.php:180-182 | a textarea's id is 'txt-' followed by the caller's id, whatever the configuration or the caller say |
| HTMLForm.AtributosChkGet | dlx/ajudantes/htmlform.ajudante.php:269-275 | a selected box is checked; otherwise 'checked' is what the caller or the configuration say |
| HTMLForm.AtributosArquivoGet | dlx/ajudantes/htmlform.ajudante.php:296-305 | with extensions the input is validated by validaUpload, with the upload message and the extensions' text; without them, as configured |
| HTMLForm.Input | dlx/ajudantes/htmlform.ajudante.php:132-133 | an input element: '<input ' ... '/>' |
| HTMLForm.ListaOpcoes | dlx/ajudantes/htmlform.ajudante.php:208-224 | no option gives only the 'no option' entry; otherwise the initial options followed by one per given option, a plain value becoming its own text |
| HTMLForm.HtmlOpcao | dlx/ajudantes/htmlform.ajudante.php:230-236 | an option is marked ' SELECTED' exactly when its value is among the selected ones |
| HTMLForm.ComboVazio | dlx/ajudantes/htmlform.ajudante.php:221-223 | with no options the select holds only the 'no option' entry, selected exactly when '' is among the selected values |
| HTMLForm.ExtensoesTexto | dlx/ajudantes/htmlform.ajudante.php:300-301 | the extensions count as absent exactly when they are empty(): null, an empty array, '' or '0' |
| HTMLForm.InicioTroca | dlx/ajudantes/htmlform.ajudante.php:309 | the replacement starts at the leftmost position where ',' then an optional blank and 3 or 4 lower-case letters reach the end |
| HTMLForm.TrocarUltimaExtensao | dlx/ajudantes/htmlform.ajudante.php:309 | the text is unchanged exactly when nothing matches (always without a comma); a match makes it two characters longer |
| HTMLForm.TrocarUltimaLista | dlx/ajudantes/htmlform.ajudante.php:301-309 | the last extension of a list joined with ', ' is introduced by ' e ' followed by its own blank |
| HTMLForm.SufixoUpload | dlx/ajudantes/htmlform.ajudante.php:309 | no text after the field unless the extensions' text is not empty(); then '<br/>Extensões: ' and the replaced list |
| HTMLForm.UploadListaVazia | dlx/ajudantes/htmlform.ajudante.php:300-309 | a one-element array of extensions is shown as its element alone, and as nothing when that element is empty() |
| HTMLForm.SufixoLista | dlx/ajudantes/htmlform.ajudante.php:301-309 | a list of extensions is shown with its last one introduced by ' e ' |
| HTMLForm.CaixaChk | dlx/ajudantes/htmlform.ajudante.php:55-278 | the checkbox is followed by an empty label pointing at its id |
| HTMLForm.RotuloSpan | dlx/ajudantes/htmlform.ajudante.php:277 | chkSimNao's label text is a plain span, absent exactly when there is no label text |
| HTMLForm.HTMLForm.constructor | dlx/ajudantes/htmlform.ajudante.php:60-100 | the input and button configurations start as the framework's defaults |
| HTMLForm.HTMLForm.NovoCampo | dlx/ajudantes/htmlform.ajudante.php:108-110 | the named input configuration is added or replaced; the buttons are unchanged |
| HTMLForm.HTMLForm.NovoBotao | dlx/ajudantes/htmlform.ajudante.php:320-322 | the named button configuration is added or replaced; the inputs are unchanged |
| HTMLForm.HTMLForm.CampoGeral | dlx/ajudantes/htmlform.ajudante.php:126-134 | null exactly for an unknown kind; otherwise the label pointing at the field's id, the hint and the input with the field's attributes |
| HTMLForm.HTMLForm.CaixaTexto | dlx/ajudantes/htmlform.ajudante.php:179-185 | a textarea holding the value ('' for null), its label pointing at 'txt-' and the id |
| HTMLForm.HTMLForm.ComboSelect | dlx/ajudantes/htmlform.ajudante.php:204-240 | a select holding the listed options, each marked when its value is selected, its label pointing at the field's id |
| HTMLForm.HTMLForm.ChkSimNao | dlx/ajudantes/htmlform.ajudante.php:268-279 | the checkbox with its attributes and the empty label pointing at its id, after the span label and the hint |
| HTMLForm.HTMLForm.ArquivoUpload | dlx/ajudantes/htmlform.ajudante.php:295-310 | the file input with its attributes followed by the extensions' text; without extensions the markup ends with the input |
| HTMLForm.HTMLForm.Botao | dlx/ajudantes/htmlform.ajudante.php:334-338 | null exactly for an unknown kind; otherwise a button around the text |
| HTMLLinks.DestinoGet | dlx/ajudantes/htmllinks.ajudante.php:97-107 | a popup link points at 'javascript:' and carries the form action and the real href; any other link points at the href |
| HTMLLinks.ComTituloGet | dlx/ajudantes/htmllinks.ajudante.php:109-111 | a given title replaces the configured one; without one nothing changes |
| HTMLLinks.ComClasseGet | dlx/ajudantes/htmllinks.ajudante.php:114-118 | the common class is appended after a blank to an existing class, or becomes the class |
| HTMLLinks.AtributosLinkGet | dlx/ajudantes/htmllinks.ajudante.php:94-118 | every attribute of the link is the one link() decides, in the order it sets them |
| HTMLLinks.ValorLinkOutros | dlx/ajudantes/htmllinks.ajudante.php:94 | apart from the attributes link() sets, the caller's attributes win over the configuration |
| HTMLLinks.Selecionar | dlx/ajudantes/htmllinks.ajudante.php:73-77 | a known name gives its configuration and an unknown one that of 'desconhecido' |
| HTMLLinks.Link | dlx/ajudantes/htmllinks.ajudante.php:93-121 | an anchor around the text |
| HTMLLinks.Pecas | dlx/ajudantes/htmllinks.ajudante.php:136-146 | one piece per entry, in order: its link when it is an array, nothing otherwise |
| HTMLLinks.LinksUm | dlx/ajudantes/htmllinks.ajudante.php:136-146 | an entry that is not an array yields nothing; an array yields exactly its link, with the defaults for missing keys |
| HTMLLinks.HTMLLinks.constructor | dlx/ajudantes/htmllinks.ajudante.php:39-52 | the default configurations and the common class 'link-person' |
| HTMLLinks.HTMLLinks.NovoLink | dlx/ajudantes/htmllinks.ajudante.php:61-63 | the configuration is stored under the sanitized name; the common class is unchanged |
| HTMLLinks.HTMLLinks.LinkArray | dlx/ajudantes/htmllinks.ajudante.php:132-150 | '' unless the entries form a multidimensional array; then the concatenated links; the result passed through func when one is given |
| HTMLLista.Hifenizar | dlx/ajudantes/htmllista.ajudante.php:115-116 | no blank survives, every other character comes from the input, and a text without blanks is unchanged |
| HTMLLista.SemPontuacao | dlx/ajudantes/htmllista.ajudante.php:115-116 | no '!', '?' or '.' survives, the rest comes from the input, and a text without them is unchanged |
| HTMLLista.HifenizarSemBranco | dlx/ajudantes/htmllista.ajudante.php:115-116 | a prefix without blanks passes through the blank replacement unchanged |
| HTMLLista.SemPontuacaoAppend | dlx/ajudantes/htmllista.ajudante.php:115-116 | dropping the punctuation works piece by piece |
| HTMLLista.PrefixoThForma | dlx/ajudantes/htmllista.ajudante.php:115-116 | the anchored ^(th\-\|) replacement always leaves exactly one 'th-' in front |
| HTMLLista.CaudaPrefixo | dlx/ajudantes/htmllista.ajudante.php:113-121 | a prefix made of id characters passes through the whole cleaning unchanged |
| HTMLLista.GerarIDTituloForma | dlx/ajudantes/htmllista.ajudante.php:113-121 | the id is 'th-' followed by the text without accents, blanks turned into '-', punctuation dropped, in lower case |
| HTMLLista.GerarIDTituloFixo | dlx/ajudantes/htmllista.ajudante.php:113-121 | an id already in that form is left as it is |
| HTMLLista.GerarIDTituloIdempotente | dlx/ajudantes/htmllista.ajudante.php:113-121 | generating the id of a generated id gives it back |
| HTMLLista.AtributosTitulo | dlx/ajudantes/htmllista.ajudante.php:134-135 | the title cell's id is the generated id |
| HTMLLista.AtributosTituloOutros | dlx/ajudantes/htmllista.ajudante.php:134 | every other attribute comes from the caller, or else from the cell configuration |
| HTMLLista.AtributosComum | dlx/ajudantes/htmllista.ajudante.php:173-178 | without a title the cell has the configured and the caller's attributes; with one, 'headers' is the id its title cell got and 'data-th' the title |
| HTMLLista.AtributosComumOutros | dlx/ajudantes/htmllista.ajudante.php:173 | apart from headers and data-th, a cell keeps the caller's attributes over the configuration's |
| HTMLLista.HTMLLista.constructor | dlx/ajudantes/htmllista.ajudante.php:36-49 | only the 'registros' configuration, and none selected |
| HTMLLista.HTMLLista.NovaLista | dlx/ajudantes/htmllista.ajudante.php:58-60 | the named configuration is added or replaced; the selected one is untouched |
| HTMLLista.HTMLLista.Parte | dlx/ajudantes/htmllista.ajudante.php:72-216 | a part's attributes exist exactly when a configuration is selected and has that part |
| HTMLLista.HTMLLista.Abertura | dlx/ajudantes/htmllista.ajudante.php:91-217 | the opening tag exists exactly when the part does, and opens the part's element |
| HTMLLista.HTMLLista.InicioLista | dlx/ajudantes/htmllista.ajudante.php:71-75 | the named configuration becomes the selected one and the table opens with its 'lista' part; an unknown name gives nothing |
| HTMLLista.HTMLLista.Subtitulo | dlx/ajudantes/htmllista.ajudante.php:239-242 | a caption around the text exactly when the configuration has a 'subtitulo' part |
| HTMLLista.HTMLLista.CelulaTitulo | dlx/ajudantes/htmllista.ajudante.php:133-138 | a th around the text exactly when the configuration has a 'celula' part; its attributes are AtributosTitulo's: the generated id over the caller's and the configuration's |
| HTMLLista.HTMLLista.CelulaComum | dlx/ajudantes/htmllista.ajudante.php:172-181 | a td around the text ('' for null) exactly when the configuration has a 'celula' part; its attributes are AtributosComum's: headers and data-th from the title when one is given |
| AjdConstrutorSql.ValidarPalavra | dlx/ajudantes/construtorsql.ajudante.php:28-49 | the validated word is either '' (the null of a failed match, upper-cased) or the input in upper case |
| AjdConstrutorSql.ValidarPalavraSemNL | dlx/ajudantes/construtorsql.ajudante.php:28-49 | without a newline, the input is kept (upper-cased) exactly when it is empty or one of the words in any case |
| AjdConstrutorSql.ValidarAndOrSpec | dlx/ajudantes/construtorsql.ajudante.php:28-33 | the connector is AND, OR or '', AND exactly for 'and' in any case and OR exactly for 'or' |
| AjdConstrutorSql.ValidarTipoJoinSpec | dlx/ajudantes/construtorsql.ajudante.php:36-41 | the join type is INNER, LEFT, RIGHT or '', and '' for any other word |
| AjdConstrutorSql.ValidarTipoOrdenacaoSpec | dlx/ajudantes/construtorsql.ajudante.php:44-49 | the direction is ASC, DESC or '', and '' for any other word |
| AjdConstrutorSql.AdAlias | dlx/ajudantes/construtorsql.ajudante.php:52-54 | nothing for an alias PHP calls empty ('' or '0'); otherwise " AS " followed by the alias |
| AjdConstrutorSql.LiteralTextoRoundTrip | dlx/ajudantes/construtorsql.ajudante.php:57-59 | the quoted literal var_export writes for a string reads back as that string |
| AjdConstrutorSql.VarExportBD | dlx/ajudantes/construtorsql.ajudante.php:57-59 | a non-scalar is returned as it is; a scalar becomes its text, an integer its decimal digits |
| AjdConstrutorSql.VarExportBDTexto | dlx/ajudantes/construtorsql.ajudante.php:57-59 | an exported string is a literal that reads back as the string |
| AjdConstrutorSql.TabelaExiste | dlx/ajudantes/construtorsql.ajudante.php:69-73 | nothing happens exactly when the table exists; otherwise 1404 naming the table |
| AjdConstrutorSql.CampoExiste | dlx/ajudantes/construtorsql.ajudante.php:82-86 | nothing happens exactly when the table has a column of that name; otherwise 1404 naming the field |
| AjdConstrutorSql.FiltrarCamposTabela | dlx/ajudantes/construtorsql.ajudante.php:100-107 | a column is kept exactly when it is in the description, in the include list when there is one and not in the exclude list when there is one |
| AjdConstrutorSql.FiltrarIdempotente | dlx/ajudantes/construtorsql.ajudante.php:100-107 | filtering a filtered description changes nothing |
| AjdConstrutorSql.OpAtChars | dlx/ajudantes/construtorsql.ajudante.php:179 | an operator matches under the i flag exactly when each of its characters equals the text's in lower case |
| AjdConstrutorSql.ValorLenAspas | dlx/ajudantes/construtorsql.ajudante.php:179 | a literal whose body holds no quote and no newline is closed by its own quote |
| AjdConstrutorSql.ValorLenGuloso | dlx/ajudantes/construtorsql.ajudante.php:179 | the greedy literal '.+' runs to the last quote of the line |
| AjdConstrutorSql.TentarOpsOperador | dlx/ajudantes/construtorsql.ajudante.php:179 | each spelling of the operator alternation, in any case, is matched as itself with the literal after it, although earlier alternatives are tried first |
| AjdConstrutorSql.CasarCondicao | dlx/ajudantes/construtorsql.ajudante.php:179-180 | "field = 'value'" at the start of the text is matched in one piece |
| AjdConstrutorSql.PalavraNaoCasaInicio | dlx/ajudantes/construtorsql.ajudante.php:179-180 | a word of letters followed by a blank and a condition is no match: the pattern needs an operator after the field |
| AjdConstrutorSql.ReescreverPrimeira | dlx/ajudantes/construtorsql.ajudante.php:180-181 | a condition at the start is rewritten to its placeholder and its value captured; the rest is rewritten on its own |
| AjdConstrutorSql.ReescreverConector | dlx/ajudantes/construtorsql.ajudante.php:180-181 | the connector " AND " before a condition is copied through unchanged |
| AjdConstrutorSql.SemAspasCitado | dlx/ajudantes/construtorsql.ajudante.php:187-189 | a captured literal loses exactly its enclosing quotes |
| AjdConstrutorSql.ReescreverCondicoes | dlx/ajudantes/construtorsql.ajudante.php:180-181 | with each literal closed by its own quote, AND-joined conditions become "field = :PREFIXfield" in order, with their quoted values captured |
| AjdConstrutorSql.ValoresCitados | dlx/ajudantes/construtorsql.ajudante.php:183-190 | the combined array maps each ":PREFIXfield" to its value without quotes, in order, when the fields are distinct |
| AjdConstrutorSql.Clausula2PrepareDuasAspas | dlx/ajudantes/construtorsql.ajudante.php:178-191 | as written: "a = 'x' AND b = 'y'" becomes one placeholder ":w_a" whose value is "x' AND b = 'y" |
| AjdConstrutorSql.Clausula2PrepareCorrigidoSpec | dlx/ajudantes/construtorsql.ajudante.php:178-191 | with lazy literals, AND-joined conditions "field = 'value'" give one placeholder per field and each field's own value |
| AjdConstrutorSql.OperadorMantido | dlx/ajudantes/construtorsql.ajudante.php:178-191 | a single condition with any operator spelling becomes "field op :PREFIXfield", the operator kept as written, with its value unquoted |
| AjdConstrutorSql.PrepararSelectFill | dlx/ajudantes/construtorsql.ajudante.php:219 | a SELECT built with the __CAMPOS__ placeholder gets the field list in its place |
| AjdConstrutorSql.PrepararSelectUntouched | dlx/ajudantes/construtorsql.ajudante.php:219 | a query without the placeholder is left as it is |
| Strings.RemoverAcentos | dlx/ajudantes/strings.ajudante.php:43-74 | the text keeps its length and each character is replaced by its base letter when accented, keeping case |
| Strings.RemoverAcentoCharBase | dlx/ajudantes/strings.ajudante.php:43-74 | every replacement is an unaccented ASCII letter |
| Strings.RemoverAcentosSpec | dlx/ajudantes/strings.ajudante.php:43-74 | no accent survives, unaccented text is untouched, and a second pass changes nothing |
| Strings.UcwordsAppend | dlx/ajudantes/strings.ajudante.php:87 | ucwords works piece by piece, each piece knowing whether a blank came before it |
| Strings.UcwordsJoin | dlx/ajudantes/strings.ajudante.php:87-100 | ucwords over words joined by single spaces capitalises each word |
| Strings.RemoveSpacesJoin | dlx/ajudantes/strings.ajudante.php:85-86 | removing the blanks of words joined by single spaces concatenates them |
| Strings.Conveter2PSR | dlx/ajudantes/strings.ajudante.php:82-101 | the identifier holds no blank: every space left by '_' and '-' is removed after ucwords |
| Strings.Conveter2PSRWords | dlx/ajudantes/strings.ajudante.php:84-103 | unaccented, underscore-free words joined by '-' become one identifier made of each word capitalised |
| Strings.PSR2URL | dlx/ajudantes/strings.ajudante.php:109-111 | the URL has no upper-case letter and is never shorter than the name |
| Strings.InsertHyphensBoundary | dlx/ajudantes/strings.ajudante.php:112 | a hyphen is put between every lower-case letter and the upper-case letter after it |
| Strings.InsertHyphensWords | dlx/ajudantes/strings.ajudante.php:112 | an identifier made of capitalised words gets a hyphen between each two words |
| Strings.LowerJoinCapitalized | dlx/ajudantes/strings.ajudante.php:112 | lower-casing capitalised lower-case words gives the words back |
| Strings.PSR2URLInvertsConveter2PSR | dlx/ajudantes/strings.ajudante.php:84-113 | PSR2URL undoes conveter2PSR on hyphenated lower-case names whose parts have at least two letters |
| Strings.Bool2Humano | dlx/ajudantes/strings.ajudante.php:125-135 | the yes or no word of the language for the value as FILTER_VALIDATE_BOOLEAN reads it; any other language gives the "not supported" message naming it |
| Strings.TagLength | dlx/ajudantes/strings.ajudante.php:149 | a tag found at the start is at least three characters long and fits in the text |
| Strings.CollapseSpaces | dlx/ajudantes/strings.ajudante.php:149 | no two blanks remain side by side, nothing is emptied, and the text starts with a blank exactly when it did |
| Strings.Prefix | dlx/ajudantes/strings.ajudante.php:152 | substr(s, 0, n) is a prefix of s, of length n when s is that long |
| Strings.PreviaTexto | dlx/ajudantes/strings.ajudante.php:147-153 | the result is a byte string: the cleaned text's UTF-8 bytes when there are at most qtde of them; otherwise its first qtde bytes, trimmed, followed by the ellipsis's bytes |
| Strings.PreviaTextoAscii | dlx/ajudantes/strings.ajudante.php:147-153 | for ASCII text and ellipsis, counting bytes is counting characters |
| Strings.PreviaTextoCortaAcentos | dlx/ajudantes/strings.ajudante.php:150-152 | a cleaned text "ãã" (two characters, four bytes) is cut at 3 even though it is shorter than 3 characters, leaving half a character |
| Strings.TextoLimpoNoDoubleBlank | dlx/ajudantes/strings.ajudante.php:149 | the cleaned text never holds two blanks in a row |
| Strings.HyphenateNonWord | dlx/ajudantes/strings.ajudante.php:164-165 | only word characters and hyphens remain, never two hyphens in a row, and a hyphen starts the result exactly when a non-word character started the text |
| Strings.Humano2URL | dlx/ajudantes/strings.ajudante.php:163-168 | the URL holds only lower-case word characters and single hyphens |
| Strings.HyphenatePreservesWords | dlx/ajudantes/strings.ajudante.php:164-165 | turning non-word runs into hyphens loses no word character: without its hyphens the result is the text's word characters, in order |
| Strings.Humano2URLPalavras | dlx/ajudantes/strings.ajudante.php:163-168 | removing the hyphens from the URL gives exactly the word characters of the trimmed, lower-cased, unaccented text, in order |
| Strings.Plural2Singular | dlx/ajudantes/strings.ajudante.php:178-184 | the singular is never longer than the text: each replacement is no longer than what it replaces |
| Strings.ReplaceFinalWords | dlx/ajudantes/strings.ajudante.php:179-183 | on words separated by single spaces, each ending pattern acts on each word alone |
| Strings.SingularWordSpec | dlx/ajudantes/strings.ajudante.php:179-183 | one word: "res" becomes "r", otherwise "ões" becomes "ão", otherwise a final s or S is dropped |
| Strings.SingularWords | dlx/ajudantes/strings.ajudante.php:179-183 | the three replacements in sequence give each word's singular |
| Strings.Plural2SingularWords | dlx/ajudantes/strings.ajudante.php:178-184 | plural2singular over space-separated words turns each word into its singular |
| Strings.NaoVazio | dlx/ajudantes/strings.ajudante.php:192-200 | null exactly when every argument is empty(); otherwise the first argument that is not |
| Strings.NormalizeJoin | dlx/ajudantes/strings.ajudante.php:212 | items joined by the separator come out joined by ", " |
| Strings.FinalAndJoin | dlx/ajudantes/strings.ajudante.php:212 | the last ", word" of a comma-joined list becomes " e word" |
| Strings.FinalAndNovaLinha | dlx/ajudantes/strings.ajudante.php:212 | "a, b\n" becomes "a e b\n": `$` matches before the final newline |
| Strings.Lista2HumanoWords | dlx/ajudantes/strings.ajudante.php:211-213 | a separated list of words reads "a, b e c" |
| Upload.SemBarrasSpec | dlx/classes/upload.classe.php:72 | trim(s, '/') removes the leading and trailing '/' and nothing else |
| Upload.SemBarrasIdempotente | dlx/classes/upload.classe.php:72 | trimming the slashes twice is trimming them once |
| Upload.Extensoes | dlx/classes/upload.classe.php:88 | every extension is sanitized, an empty one becoming null, in order |
| Upload.TamanhoExtensao | dlx/classes/upload.classe.php:145 | a non-zero length is that of a final '.' followed by 1 to 4 of [a-z0-9]; zero exactly when there is none |
| Upload.SemExtensaoRemove | dlx/classes/upload.classe.php:145 | where the final extension matches, exactly the '.' and the characters after it are removed |
| Upload.ExtensaoFinalUnica | dlx/classes/upload.classe.php:145 | the final extension pattern matches at one place at most |
| Upload.Filtrar | dlx/classes/upload.classe.php:145 | only characters of [a-z0-9^-] remain, and a text made of them is kept |
| Upload.DefinirNome | dlx/classes/upload.classe.php:143-157 | the name is canonical: lower-case ASCII letters, digits, '^' and '-' only |
| Upload.NormalizarEstavel | dlx/classes/upload.classe.php:147-153 | a text of [a-z0-9^-] and '.' goes through trim, blank replacement, accent removal and lower case unchanged |
| Upload.DefinirNomeIdempotente | dlx/classes/upload.classe.php:143-157 | naming a file after its own computed name gives that name again |
| Upload.DefinirNomeTiraExtensao | dlx/classes/upload.classe.php:143-157 | a canonical name followed by a short extension loses exactly the extension |
| Upload.CandidatoNovo | dlx/classes/upload.classe.php:215 | the candidate n-q.ext differs from every earlier candidate |
| Upload.Candidatos | dlx/classes/upload.classe.php:214-217 | the candidates n-0.ext .. n-(q-1).ext, each once |
| Upload.CandidatosLimitados | dlx/classes/upload.classe.php:214-217 | when all first q candidates exist, q is at most the number of existing paths, so the search ends |
| Upload.PrimeiroLivre | dlx/classes/upload.classe.php:214-217 | the first candidate from n-q.ext on that does not exist, every earlier one existing |
| Upload.NomeLivre | dlx/classes/upload.classe.php:209-218 | the target does not exist: n.ext when free, otherwise the first free n-k.ext with every earlier candidate taken |
| Upload.EscolherDestino | dlx/classes/upload.classe.php:209-218 | the while loop finds the target NomeLivre describes, and without overwrite it does not exist |
| Upload.ExtensaoDe | dlx/classes/upload.classe.php:186-188 | the detected extension, else the text after the last '.' of the original name |
| Upload.Alvo | dlx/classes/upload.classe.php:208-218 | without overwrite the target path does not exist yet |
| Upload.Passo | dlx/classes/upload.classe.php:178-222 | one entry adds at most one saved or refused name, and throws only with blocking on, after recording its refused name last |
| Upload.Processar | dlx/classes/upload.classe.php:177-223 | the lists only grow, by at most one name per entry; a stop by 1403 needs blocking on and leaves last in nao_salvos the name of an entry whose extension was refused |
| Upload.SemColisao | dlx/classes/upload.classe.php:177-223 | without overwrite the files one call saves go to paths that did not exist before and are pairwise distinct |
| Upload.SemFiltro | dlx/classes/upload.classe.php:193 | with no extension list nothing is refused and 1403 is never thrown |
| Upload.SoInvalidas | dlx/classes/upload.classe.php:178-180 | entries with an error or without a temporary file change nothing |
| Upload.RecusaBloqueia | dlx/classes/upload.classe.php:193-202 | a refused extension with blocking on records the name and throws at once |
| Upload.Processar1 | dlx/classes/upload.classe.php:178-222 | the loop body for one entry does what Passo says |
| Upload.ProcessarTodos | dlx/classes/upload.classe.php:177-223 | the foreach over the entries ends in the state Processar says, stopping where 1403 is thrown |
| Upload.Upload.constructor | dlx/classes/upload.classe.php:108-111 | the directory without its slashes and the sanitized field; no extension filter and nothing saved |
| Upload.Upload.SetDiretorio | dlx/classes/upload.classe.php:71-73 | the directory is stored sanitized and without leading or trailing '/'; nothing else changes |
| Upload.Upload.SetExtensoes | dlx/classes/upload.classe.php:87-89 | the extension list is stored sanitized; nothing else changes |
| Upload.Upload.SetCampo | dlx/classes/upload.classe.php:103-105 | the field name is stored sanitized, null when empty; nothing else changes |
| Upload.ListaExtensoes | dlx/classes/upload.classe.php:201 | implode(', ') of the accepted extensions, a null one printing as empty |
| Upload.MensagemExtensao | dlx/classes/upload.classe.php:201 | the 1403 message holds the refused file's name and the accepted extensions |
| Upload.Upload.Salvar | dlx/classes/upload.classe.php:169-226 | 1404 and nothing saved when the directory does not exist; otherwise the lists Processar gives; 1403 with the refused file's name and the accepted extensions when it stopped, else the number of saved files |
| Vetores.ArrayAssocIff | dlx/ajudantes/vetores.ajudante.php:43-45 | a non-empty array is associative exactly when its keys are not 0, 1, 2, ... in order; the empty array counts as associative |
| Vetores.ArrayMultiIff | dlx/ajudantes/vetores.ajudante.php:55-57 | an array is multidimensional exactly when one of its entries is a non-empty array |
| Vetores.MapKeepsStructure | dlx/ajudantes/vetores.ajudante.php:68-78 | every key stays in place; nested arrays stay arrays and are mapped in turn; leaves become callback(value, key) |
| Vetores.MapIdentity | dlx/ajudantes/vetores.ajudante.php:68-78 | mapping with a callback that returns its value unchanged gives the array back |
| Vetores.StripTildes | dlx/ajudantes/vetores.ajudante.php:94-97 | a leading and a trailing '~' are dropped and the rest is kept as it was; a '~' before a final newline counts as trailing; a value without '~' is unchanged |
| Vetores.StripTildesNovaLinha | dlx/ajudantes/vetores.ajudante.php:94-97 | "~a~\n" becomes "a\n": `$` matches before the final newline |
| Vetores.AtributoQuoting | dlx/ajudantes/vetores.ajudante.php:88-109 | a value without a double quote is written name="value", one with a double quote name='value'; a pattern loses its '~' delimiters |
| Vetores.RenderAll | dlx/ajudantes/vetores.ajudante.php:88-109 | one rendering per attribute, in order |
| Vetores.Array2AtributosSnoc | dlx/ajudantes/vetores.ajudante.php:88-109 | each further attribute adds one blank and its rendering, in order |
| Vetores.RemoverColuna | dlx/ajudantes/vetores.ajudante.php:120-136 | false for a non-array; otherwise every array row loses the listed columns (none listed: unchanged) and other entries stay as they are |
| Vetores.RemoverColunaLookup | dlx/ajudantes/vetores.ajudante.php:120-136 | after removerColuna a row answers no listed column and every other lookup as before |
| Vetores.Coluna2Chave | dlx/ajudantes/vetores.ajudante.php:147-166 | the loop files each row, without the key column, under its value of that column, in order |
| Vetores.Coluna2ChaveKeys | dlx/ajudantes/vetores.ajudante.php:147-166 | the result has one key per distinct column value, each once |
| Vetores.Coluna2ChaveSingle | dlx/ajudantes/vetores.ajudante.php:147-166 | a key filed by a single row holds that row without the key column |
| Vetores.ExecutarRecursivo | dlx/ajudantes/vetores.ajudante.php:175-179 | the function is called once per value, in order |
| Vetores.BuscarChaveRecursivo | dlx/ajudantes/vetores.ajudante.php:191-199 | null exactly when no group has the key; otherwise the value in the first group that has it |
| Vetores.FilterValues | dlx/ajudantes/vetores.ajudante.php:218-220 | array_filter keeps exactly the entries of the array whose value passes, with their keys: every kept entry passes and every passing entry is kept |
| Vetores.FilterValuesAppend | dlx/ajudantes/vetores.ajudante.php:218-220 | the order of the array is kept: filtering two pieces in sequence gives the filtered pieces in sequence |
| Vetores.FilterValuesUm | dlx/ajudantes/vetores.ajudante.php:218-220 | a single entry is kept exactly when its value passes |
| Vetores.ExtrairElementos | dlx/ajudantes/vetores.ajudante.php:211-221 | the union of the sub-arrays under the listed keys, filtered when a filter is given; it fails exactly when a listed key holds a non-array, stopping at the first such key with PHP 7's "Unsupported operand types" Error |
| Vetores.ExtrairFirstWins | dlx/ajudantes/vetores.ajudante.php:211-221 | an element comes from the first listed sub-array that has it |

## Left out

- Database execution (PDO prepare/execute/fetch, `infoCampos`, `identificaPK`'s query, `alterarTiposCampos`, `conectarBD`) is not modelled. Table descriptions, fetched rows and statement results are parameters.
- The file system, output buffering and `include` are not modelled. Existing paths are a set. A rendered template or master page is its text. `hostCompleto`, `acoplarHTML`, `acoplarHTMLExterno`, `carregarClassesExtras`, `carregarTemplates` and `validarPaginaMestra` depend on the file system, the network or `include` and are not modelled.
- The GD drawing in `Imagem` (preparar, salvar, mostrar, otimizarParaWeb) is not modelled. Only the guards and the resulting dimensions are.
- Sessions, redirects, `carregarIdioma`, `carregarAuto`, `carregarModulo`, `gravarLog` and `versao` are not modelled. The `DLX` constructor is modelled without its HTTPS redirect, language loading, automatic loading and database connection.
- `Vetores::adicionarSequencial` is not modelled: its counter lives in a `global` that the function's own local variable never sets.
- Visao.AdicionarValorPos: DLX\Ajudantes\Vetores (vetores.ajudante.php) defines no adicionarValorPos, so there is no definition to model; this function states the insertion the doc comments of adicionarJS/adicionarCSS describe and is used only by the corrected members.
- `Roteador`'s regular-expression matching of a route pattern against the URL is not modelled. The set of route patterns that match the URL is a parameter. The reserved-key regex is modelled, including the trailing newline that `$` lets through.
- `Controle`: PHP reflection (class_exists, method_exists, parameter names) is a table given as a parameter.
- `Calendario`: `diaDaSemana` (mktime/date, with its argument order at calendario.ajudante.php:180) and `formatarData` (DateTime) are not modelled. The weekday of the first day of the month is an input, and the grid applies the source's `- 1` to it. A date is a (year, month, day) triple, and today's date is an input.
- `Evento`: handlers are opaque callables identified by a number. Running one is recorded as a call, so their effects are not modelled.
- Texts that pass through the translation table (`traduzirTexto`) are given in their untranslated form or as inputs. The translation lookup itself is modelled in `VisaoAjudante`.
- `HTMLForm`: `campoTelefone`, `csAdicionarOpcao` and `array2Input` are not modelled. The fone/cpf/cnpj/cep/gtin configurations are also left out, because their pattern, mask and message constants are defined outside the core.
- HTMLForm.HTMLForm.ComboSelect: in_array's loose comparison of option values is modelled as string equality.
- Visao.PrimeiroIndice: array_search compares loosely (==); the model compares file names by string equality. The two differ only for names that read as the same number, such as "1" and "01".
- Visao.RemoverPrimeiro: array_search compares loosely (==); the model uses string equality, which differs only for numeric-looking names such as "1" and "01".
- Visao.Visao.AdicionarJS: in_array compares loosely (==); the model uses string equality, which differs only for numeric-looking names such as "1" and "01".
- Visao.Visao.AdicionarCSS: in_array compares loosely (==); the model uses string equality, which differs only for numeric-looking names such as "1" and "01".
- Upload.NaLista: in_array compares loosely (==); the model uses string equality, which differs only for numeric-looking extensions such as "1" and "01".
- Values.AsKey: only a decimal text without sign and without a superfluous leading zero becomes an integer key. PHP also turns a negative one such as "-5" into the integer key -5, keeps a number beyond PHP_INT_MAX as a string key, and rejects an array or an object as an illegal offset where the model uses the key "".
- ModeloRegistro.Registro.ObterValorPK: without a table the id comes from the record's getID, which the generated model class defines and which is not part of this model; the model reads the "id" property and does not show that accessor failing (for instance with 1404 when the property is missing).
- Calendario.Calendario.GerarCalendarioMes: the year must be set. setAno stores null for a year that is not an integer, and PHP then goes on with that null in its date arithmetic; that case is not modelled.
- HTMLLista: `fimLista`, `fimCabecalho`, `fimConteudo`, `fimRodape` and `fimLinha` return constant closing tags and are not modelled.
- HTMLLinks.HTMLLinks.LinkArray: the callable `func` is a function of the links' text. Its side effects are not modelled.
- The `À-ú` range of the controller's filter regex is read as the characters from À to ú. The pattern has no `u` flag, so PCRE actually compares the UTF-8 bytes of that range.
- `ControleRegistro`: the controller's other actions (mostrarDetalhes, carregarSelect, gerarForm*, inserir, salvar) and the view parameters of gerarLista are not modelled. Only gerarLista's page count is.
- `ControleRegistro.CarregarPost`: whether the model is loaded (`carregado`) is an input.
- `ModeloRegistro`: `listar`'s clause application (where/having through clausula2Prepare, groupBy, orderBy, prepararSelect, paginacao) is not modelled. Only its result selection (`posicao`) and `qtdeRegistros` are.
- `ModeloRegistro`: the change log (LogRegistro written through selecionarUK) and the constructor's event hooks are not modelled.
- ModeloRegistro.Filtrado: FILTER_SANITIZE_STRING's tag stripping is not applied. Only the empty-string-to-null rule is modelled.
- `ModeloRegistro`: setters are assumed to store the value in the property named by the prefix-stripped column.
- `AjdConstrutorSql.PrepararSelect`: the GROUP BY that prepararSelect infers from MSSQL aggregate functions in the field list is not modelled. Only the `__CAMPOS__` substitution is.
- `Pdodl`: the MSSQL regex captures of the query are given as their groups.
- `Diversos`: urldecode works on characters as bytes. The visibility of the object's properties in post2Objeto is not modelled: every property counts.
- Floating-point values are not modelled: `is_scalar` and `var_export` cover integers, booleans and strings. `Imagem`'s proportional dimensions use exact reals, not PHP floats.
- Some lookups go to a configuration that does not exist: an unknown kind of input or button in `HTMLForm` (campoGeral, botao), or a part missing from the list configuration `HTMLLista` selected. There PHP 7's array_replace_recursive warns and returns null, and what follows depends on the method. The model answers null (`None`) for the whole element in every one of these cases:
  - botao (htmlform.ajudante.php:335-337), inicioLista and the other part openings (htmllista.ajudante.php:72-74, 92, 150, 193, 216, 240), and celulaComum without a title pass that null to Vetores::array2AtributosHTML, whose parameter is typed `array` (vetores.ajudante.php:88); PHP throws a TypeError.
  - HTMLForm.HTMLForm.CampoGeral: the assignments that follow (htmlform.ajudante.php:127-136) turn the null into an array, so PHP renders an input carrying only name, id and the given value.
  - HTMLLista.HTMLLista.CelulaTitulo: the id assignment (htmllista.ajudante.php:134-137) turns the null into an array, so PHP renders a th carrying only the generated id.
  - HTMLLista.HTMLLista.CelulaComum: given a title, the headers and data-th assignments turn the null into an array, so PHP renders a td carrying only those two attributes.
- `DLX\Ajudantes\Sessao`, `BaseControle`, `DataHora`, `Email`, `index.php`, the translation tables and the generated `__modelos` code are not part of this model.
- Imagem.NovasDimensoes: a division by the original's zero side is modelled as PHP 8's DivisionByZeroError, a failure that changes nothing. PHP 7 instead warns, derives an infinite or undefined size and lets GD refuse it.
- ModeloRegistro.Registro.constructor: the record's table is taken to exist in the database. In PHP, the builder's select or delete would throw 1404 for a missing table. That check is modelled in ClasseConstrutorSql and in salvar.
- ModeloRegistro.SelectUK: the record's table is taken to exist in the database. In PHP, the builder's select or delete would throw 1404 for a missing table. That check is modelled in ClasseConstrutorSql and in salvar.
- ModeloRegistro.MontarExcluir: the record's table is taken to exist in the database. In PHP, the builder's select or delete would throw 1404 for a missing table. That check is modelled in ClasseConstrutorSql and in salvar.
- ClasseConstrutorSql.ConstrutorSQL.Set: the optional `$filtro` is always FILTER_DEFAULT, the only filter the framework passes (construtorsql.ajudante.php:160). FILTER_DEFAULT gives the value back unchanged; other filters are not modelled.
- Upload.Upload.Salvar: the entries are a parameter that stands for what obterArquivos (upload.classe.php:114-132) yields from `$_FILES`; that generator, its choice of one field or all of them and the reshaping of multi-file fields, is not modelled.
- Arquivos.Modelo: the base is spliced into the pattern `~^{$base}~` (arquivos.ajudante.php:323) and so read as a regex; the model strips it as literal text. The two agree when the base holds no regex metacharacter; a '.' in it matches any character, and a '~' ends the pattern early, which makes PHP warn and return null.
- Pdodl.SemPrefixo: the prefix is spliced into `~^{$prefixo}~` (pdodl.classe.php:225) and read as a regex; the model strips it as literal text, which agrees for the table prefixes of letters, digits and '_'.
- Visao.CasaTemplate: the template name is spliced into `~{$template}.phtml~` (visao.classe.php:375) and read as a regex; the model matches the name literally. Only the '.' before the extension is a wildcard, as written.
- Visao.SemTemplate: the template name is spliced into `~{$template}.phtml~` (visao.classe.php:375) and read as a regex; the model matches the name literally. Only the '.' before the extension is a wildcard, as written.
- VisaoAjudante.ExtrairAreaLayout: the area name is spliced into `\[{$area}\]` (visao.ajudante.php:50-51) and read as a regex; the model matches `[AREA]` literally, which agrees for area names without regex metacharacters.
- Strings.NormalizeSeparators: the separator is spliced into `~{$separador}\s*~` (strings.ajudante.php:212) and read as a regex; the model treats it as literal text. This agrees for ',' and ';', the separators of the doc comment, but not for metacharacters such as '.' or '|'.
- Strings.NormalizeJoin: the separator is spliced into `~{$separador}\s*~` (strings.ajudante.php:212) and read as a regex; the model treats it as literal text. This agrees for ',' and ';', the separators of the doc comment, but not for metacharacters such as '.' or '|'.
- Strings.Lista2HumanoWords: the separator is spliced into `~{$separador}\s*~` (strings.ajudante.php:212) and read as a regex; the model treats it as literal text. This agrees for ',' and ';', the separators of the doc comment, but not for metacharacters such as '.' or '|'.
- Strings.FinalAnd: `\w` under the u flag is every Unicode letter, digit, mark or connector; the model's word characters are ASCII's plus the Latin-1 letters, so a last item written in other scripts is not joined with " e ".
- Filtros.Sanitizar: a tag ends at the first '>'. PHP's php_strip_tags also skips a '>' inside quotes within a tag, counts nested '<' and treats `<!-- -->` comments apart; inputs that use those are stripped differently.
- Filtros.SemTags: a tag ends at the first '>'. PHP's php_strip_tags also skips a '>' inside quotes within a tag, counts nested '<' and treats `<!-- -->` comments apart; inputs that use those are stripped differently.

## Findings

| source | as written | input that shows it | evidently intended | confidence | as-written member | corrected member |
|---|---|---|---|---|---|---|
| dlx/ajudantes/construtorsql.ajudante.php:179 | the value pattern `'.+'` is greedy, so one match runs from the first quote to the last quote of the line | clausula2Prepare("a = 'x' AND b = 'y'", "w_") gives "a = :w_a" with ":w_a" bound to "x' AND b = 'y" | each literal ends at its own quote: "a = :w_a AND b = :w_b" with ":w_a" => "x" and ":w_b" => "y" | high, not executed | AjdConstrutorSql.Clausula2PrepareDuasAspas | AjdConstrutorSql.Clausula2PrepareCorrigidoSpec |
| _auto/controles/basecontroleregistro.controle.php:591-606 | the deleted count is count(modificados), which executarLote fills with one answer per id whether or not the deletion succeeded | ids [7] with excluir answering false: modificados is [false], the count is 1 and the success message is shown | count only the answers that are not empty(), and show the error message when no record was deleted | high, not executed | ControleRegistro.ExcluirFalhaComoSucesso | ControleRegistro.MensagemExcluir |
| dlx/classes/visao.classe.php:439 | adicionarJS calls Vetores::adicionarValorPos, a method DLX\Ajudantes\Vetores does not define | adicionarJS("a.js") on a view whose JS list lacks "a.js" raises "Call to undefined method" | the file is inserted into arquivos_js at the given position, appended without one | high, not executed | Visao.Visao.AdicionarJS | Visao.Visao.AdicionarJSCorrigido |
| dlx/classes/visao.classe.php:411 | adicionarCSS calls the same undefined method, and would store its result into arquivos_js | adicionarCSS("x.css") on a view whose CSS list lacks "x.css" raises "Call to undefined method" | the stylesheet is added to arquivos_css and arquivos_js is untouched | high, not executed | Visao.Visao.AdicionarCSS | Visao.Visao.AdicionarCSSCorrigido |
