# Tiozihuatl front end: verified model of its decision rules

This project models, in Dafny, the logic at the heart of the Tiozihuatl
Angular client (a library system's web front end). It covers five pieces:

- **Registration wizard** (`Register`, `PasswordStrength`, `PayloadBytes`):
  - the three steps and the gates between them;
  - the local e-mail and phone patterns;
  - the fingerprint toggle;
  - the password-strength meter;
  - the loops that copy WebAuthn payloads between base64 text and byte buffers.
- **Role-based field rules**:
  - the administrator's user form (`AdminPanel`): which fields are active, which are required, and how fields are nulled in place before saving;
  - the profile page (`PerfilUsuario`): what each role sees and may edit, the profile update, and the password change.
- **Session store** (`AuthService`): `clearSession`, `logout` and `refreshToken`. They act on `localStorage`, modelled as a map from string to string (`Storage`).
- **Route guard** (`AuthGuard`): the tokens, the token's payload segment and its expiry, one renewal attempt, then the role check.
- **HTTP interceptor** (`AuthInterceptor`): attach the bearer token; on a 401, renew once and retry once.

Stateful parts are classes whose methods change their fields: the components,
and the store. The decision rules are functions, and lemmas relate them.

## How the program's environment is modelled

- JavaScript values are `JsValues.JsValue`: `undefined`, `null`, booleans, integers, strings and objects. `JsValues` writes out ECMAScript truthiness, `?.`, `Number(...)` and `String(...)`.
- Inputs to each method or function, rather than calls the model makes:
  - the reply to each HTTP request (`Http.Outcome`);
  - the clock (`now`, in milliseconds);
  - `atob`, `btoa` and `JSON.parse`, passed as functions, with `None` standing for a thrown error;
  - the answer to each confirmation dialog.
- The interceptor takes the server as a function from request to reply.

## Model

| member | source | states |
|---|---|---|
| PasswordStrength.CountTrue | src/app/auth/register/register.component.ts:192 | the count of true entries is at most their number; it equals that number iff all hold and is 0 iff none holds |
| PasswordStrength.CountTrueAppend | src/app/auth/register/register.component.ts:192 | counting adds up over concatenation, so the count is the number of true entries |
| PasswordStrength.CriteriaByCharacter | src/app/auth/register/register.component.ts:64-78 | each of the four class criteria holds iff some character of the password is in its class (lowercase, uppercase, ASCII digit, one of `@$!%*?&`) |
| JsValues.JsLength | src/app/auth/register/register.component.ts:190 | `length` counts UTF-16 code units: between one and two per character, one for each character below U+10000 |
| PasswordStrength.Score | src/app/auth/register/register.component.ts:186-192 | the score is the number of the five criteria that hold (the four classes and a length of at least 8 code units), so it is at most 5 and is 5 exactly when all hold |
| PasswordStrength.Stage | src/app/auth/register/register.component.ts:178-194 | the stage is 0 exactly for the empty password; otherwise 1 iff the score is at most 2, 2 iff it is 3 or 4, and 3 exactly when all five criteria hold, which needs a length of at least 8 code units |
| PasswordStrength.AstralCharactersCountTwice | src/app/auth/register/register.component.ts:190 | "Aa1@" followed by two emoji, six characters long, reaches stage 3, because each emoji counts as two code units |
| PasswordStrength.CountTrueMonotone | src/app/auth/register/register.component.ts:192 | turning criteria from false to true never lowers the count |
| PasswordStrength.StageMonotone | src/app/auth/register/register.component.ts:186-193 | appending characters to a password never lowers its stage |
| Register.EmailPatternMeaning | src/app/auth/register/register.component.ts:107-109 | the e-mail pattern accepts a text iff it has no blank, exactly one '@' with a non-empty local part, and a '.' after the '@' that is neither the first nor the last character of the domain |
| Register.EmailPatternMatches | src/app/auth/register/register.component.ts:108 | a text the e-mail pattern accepts is at least five characters long |
| Register.PhonePatternMatches | src/app/auth/register/register.component.ts:114 | a text the phone pattern accepts is ten code units long |
| Register.PhoneReadsAsNumber | src/app/auth/register/register.component.ts:114 | a text the phone pattern accepts is all digits, and `Number()` reads it as its decimal value |
| Register.CheckPersonalData | src/app/auth/register/register.component.ts:147-176 | the verdict is "accepted" iff all five fields are filled, the e-mail is valid and new, and the phone is valid and new; each failure verdict holds exactly when the checks before it pass and its own fails |
| Register.RegisterComponent.constructor | src/app/auth/register/register.component.ts:29-50 | the wizard starts at step 1 with an empty form, no validity verdicts, stage 0 and no biometric choice |
| Register.RegisterComponent.ValidarDatosPersonales | src/app/auth/register/register.component.ts:147-176 | a passing step 1 has all fields filled and a valid, unused e-mail and phone |
| Register.RegisterComponent.ValidarPasswordFuerte | src/app/auth/register/register.component.ts:196-198 | passes only at stored stage 3 with matching confirmation; when the stored stage is current it passes iff all five criteria hold and the confirmation matches |
| Register.RegisterComponent.NextStep | src/app/auth/register/register.component.ts:80-84 | the step advances by one iff it is below 3 and the gate of step 1 or 2 passes; otherwise it stays |
| Register.RegisterComponent.PrevStep | src/app/auth/register/register.component.ts:86-90 | the step goes back by one only above 1, so it never leaves 1..3 |
| Register.RegisterComponent.ToggleBiometric | src/app/auth/register/register.component.ts:97-105 | afterwards enrolment is on iff the chosen kind is HUELLA, and any other argument clears both fields |
| Register.RegisterComponent.VerificarCorreoBD | src/app/auth/register/register.component.ts:119-131 | requests the e-mail lookup and sets `emailExists` to the reply's `exists` flag, false on an error |
| Register.RegisterComponent.VerificarTelefonoBD | src/app/auth/register/register.component.ts:133-145 | requests the phone lookup and sets `phoneExists` to the reply's `exists` flag, false on an error |
| Register.RegisterComponent.ValidarCorreoLocal | src/app/auth/register/register.component.ts:107-111 | `emailValid` records whether the address is well formed, and the lookup is requested iff it is |
| Register.RegisterComponent.ValidarTelefonoLocal | src/app/auth/register/register.component.ts:113-117 | `phoneValid` records whether the phone is exactly ten ASCII digits, and the lookup is requested iff it is |
| Register.RegisterComponent.OnPasswordInput | src/app/auth/register/register.component.ts:178-194 | shows the tip and stores the meter's stage of the password |
| PayloadBytes.BytesOf | src/app/auth/register/register.component.ts:200-208 | as many bytes as characters, byte i being character i's code modulo 256 |
| PayloadBytes.BinaryOf | src/app/auth/register/register.component.ts:215-222 | as many characters as bytes, character i having byte i as its code |
| PayloadBytes.BytesOfBinaryOf | src/app/auth/register/register.component.ts:200-222 | the binary string built from bytes has only codes below 256 and copies back to the same bytes |
| PayloadBytes.DecodeEncode | src/app/auth/register/register.component.ts:200-222 | if `atob` undoes `btoa` on binary strings, decoding what was encoded gives back the same bytes |
| PayloadBytes.Base64ToArrayBuffer | src/app/auth/register/register.component.ts:200-208 | a fresh buffer holding the decoded text's bytes, or nothing when `atob` throws |
| PayloadBytes.ArrayBufferToBase64 | src/app/auth/register/register.component.ts:215-222 | returns the encoding of the buffer's contents |
| AdminPanel.ResetForm | src/app/pages/admin/admin-panel/admin-panel.ts:36-51 | exactly the twelve form keys, with no id, state "Activo" and every other field empty |
| AdminPanel.FindRole | src/app/pages/admin/admin-panel/admin-panel.ts:150 | the index of the first role whose id equals the numeric value of the id, or none when no role matches |
| AdminPanel.GetRolNombre | src/app/pages/admin/admin-panel/admin-panel.ts:149-152 | the name of the first matching role, or the empty string when none matches |
| AdminPanel.CampoActivo | src/app/pages/admin/admin-panel/admin-panel.ts:120-147 | a field is inactive only for Alumno, Docente, Bibliotecario or Visitante, and never one of the seven fields every role keeps (names, correo, telefono, contrasena, estado) |
| AdminPanel.CampoActivoByRole | src/app/pages/admin/admin-panel/admin-panel.ts:120-147 | before a role is chosen, for Administrador and for unknown names every field is active; Alumno has exactly its ten fields; Docente, Bibliotecario and Visitante each lose one more (semestre, carrera, matricula) |
| AdminPanel.NormalisedForm | src/app/pages/admin/admin-panel/admin-panel.ts:182-197 | the form keeps every property it had and gains at most matricula, id_carrera and id_semestre |
| AdminPanel.NormalisedFormMeaning | src/app/pages/admin/admin-panel/admin-panel.ts:182-197 | among matricula, carrera and semestre exactly the fields inactive for the role are nulled; every other entry keeps its value |
| AdminPanel.NormalisedFormIdempotent | src/app/pages/admin/admin-panel/admin-panel.ts:182-197 | nulling a second time changes nothing |
| AdminPanel.RequiredFieldsAreActive | src/app/pages/admin/admin-panel/admin-panel.ts:128-142 | whatever an inactive field holds has no effect on whether the role's required fields pass, so no required field is inactive |
| AdminPanel.NormalisedFormStillFilled | src/app/pages/admin/admin-panel/admin-panel.ts:162-197 | the form that is sent passes the same basic and role checks as the form that was checked |
| AdminPanel.CambiarEstado | src/app/pages/admin/admin-panel/admin-panel.ts:56-84 | a request is sent iff the dialog is confirmed, and it updates that user with nothing but the new state |
| AdminPanel.AdminPanelComponent.constructor | src/app/pages/admin/admin-panel/admin-panel.ts:16-23 | the panel starts with no roles, not editing, and a reset form |
| AdminPanel.AdminPanelComponent.EditarUsuario | src/app/pages/admin/admin-panel/admin-panel.ts:218-221 | the form becomes the row and edit mode is on |
| AdminPanel.AdminPanelComponent.GuardarUsuario | src/app/pages/admin/admin-panel/admin-panel.ts:157-213 | nothing is sent and nothing changes when nombre, correo or rol is missing, or when a field the role requires is missing; otherwise the normalised form is sent as an update iff it has an id; success resets the form and leaves edit mode; failure keeps the nulled form |
| PerfilUsuario.VisibilityNested | src/app/pages/perfil-usuario/perfil-usuario.ts:98-110 | Administrador and Alumno see every field; Docente, Bibliotecario and Visitante each lose one more field (semestre, carrera, matricula) |
| PerfilUsuario.EditableByRole | src/app/pages/perfil-usuario/perfil-usuario.ts:112-119 | Administrador and Visitante may edit every field; every other role exactly correo and telefono; Visitante may edit a field it cannot see |
| PerfilUsuario.VisibilityMatchesAdminForm | src/app/pages/perfil-usuario/perfil-usuario.ts:98-110 | for the five named roles the profile page shows exactly the role-specific fields the administrator's form keeps active; for other roles it hides them while the form enables them |
| PerfilUsuario.MostrarCampo | src/app/pages/perfil-usuario/perfil-usuario.ts:98-110 | a field is shown only to one of the five named roles |
| PerfilUsuario.Editable | src/app/pages/perfil-usuario/perfil-usuario.ts:112-119 | correo and telefono are editable whatever the role |
| PerfilUsuario.ProfileUpdate | src/app/pages/perfil-usuario/perfil-usuario.ts:52-58 | the update carries exactly nombre, a_paterno, a_materno, correo and telefono, each as the profile holds it |
| PerfilUsuario.ProfileUpdateIgnoresOtherKeys | src/app/pages/perfil-usuario/perfil-usuario.ts:52-58 | changing any other property of the profile (rol, matricula, ...) leaves the update unchanged |
| PerfilUsuario.PasswordChangeBody | src/app/pages/perfil-usuario/perfil-usuario.ts:83 | the body carries the current and the new password |
| PerfilUsuario.PerfilUsuarioComponent.constructor | src/app/pages/perfil-usuario/perfil-usuario.ts:16-20 | the page starts with an empty profile, both password fields empty and stage 0 |
| PerfilUsuario.PerfilUsuarioComponent.ObtenerPerfil | src/app/pages/perfil-usuario/perfil-usuario.ts:29-42 | a reply replaces the profile, an error keeps it, the login page is chosen iff the error is a 401, and loading ends |
| PerfilUsuario.PerfilUsuarioComponent.HabilitarEdicion | src/app/pages/perfil-usuario/perfil-usuario.ts:44-46 | edit mode is on |
| PerfilUsuario.PerfilUsuarioComponent.GuardarCambios | src/app/pages/perfil-usuario/perfil-usuario.ts:49-67 | sends the profile update; edit mode ends iff the update succeeds; loading ends |
| PerfilUsuario.PerfilUsuarioComponent.ValidarPasswordFuerte | src/app/pages/perfil-usuario/perfil-usuario.ts:185-187 | passes iff the stored stage is 3, and so, when the stage is current, iff the new password meets all five criteria |
| PerfilUsuario.PerfilUsuarioComponent.OnPasswordInput | src/app/pages/perfil-usuario/perfil-usuario.ts:167-183 | shows the tip and stores the meter's stage of the new password |
| PerfilUsuario.PerfilUsuarioComponent.CambiarContrasena | src/app/pages/perfil-usuario/perfil-usuario.ts:70-94 | nothing is sent and nothing changes unless both passwords are filled and the stage is 3; success clears both fields, the stage and the tip; failure keeps them; loading ends either way; a sent password meets all five criteria and the stage stays current |
| PerfilUsuario.CerrarSesion | src/app/pages/perfil-usuario/perfil-usuario.ts:123-138 | a confirmed sign-out empties the store and goes to the login page; a declined one changes nothing |
| JsValues.PresentMeansNonEmpty | src/app/api/services/auth.ts:75 | a stored item passes `if (item)` iff it exists and is not empty |
| JsValues.TruthyHasText | src/app/api/services/auth.ts:85-87 | a truthy value is never stored as the empty string |
| JsValues.NumberOfStringOfNumber | src/app/pages/admin/admin-panel/admin-panel.ts:150 | `Number(String(n))` is `n` for every integer, so a numeric id kept as text still finds its role |
| AuthService.UserText | src/app/api/services/auth.ts:72 | the stored user text when present and non-empty, otherwise "{}" |
| AuthService.RefreshRequest | src/app/api/services/auth.ts:81-83 | a POST to the renewal route carrying the user's id and the refresh token |
| AuthService.StoreTokensMeaning | src/app/api/services/auth.ts:84-88 | after a reply with both tokens is stored, both items are present, storing again changes nothing, and every other item is untouched |
| AuthService.ClearSession | src/app/api/services/auth.ts:103-107 | removes exactly the access token, the refresh token and the user |
| AuthService.Logout | src/app/api/services/auth.ts:47-67 | without an access token: no request and the "No hay sesión activa." error; with one: a POST carrying it as a bearer header, and the reply passed on; the session is cleared on every path |
| AuthService.RefreshToken | src/app/api/services/auth.ts:70-100 | unreadable user: throws and changes nothing; no refresh token or no user id: clears the session and fails with "Sesión expirada." without a request; otherwise sends the renewal, stores both new tokens when the reply has them, and clears the session on every other reply or error |
| AuthGuard.Split | src/app/guards/auth.guard.ts:66 | at least one part, no part contains the separator, and joining the parts gives the text back |
| AuthGuard.SplitJoin | src/app/guards/auth.guard.ts:66 | splitting a join of separator-free parts gives the same parts |
| AuthGuard.PayloadOfToken | src/app/guards/auth.guard.ts:66 | a token of three dot-joined segments has its middle segment as payload |
| AuthGuard.NoDotNoPayload | src/app/guards/auth.guard.ts:66 | a token without a dot has no payload segment |
| AuthGuard.PayloadSegment | src/app/guards/auth.guard.ts:66 | `undefined` or a text without a dot, and a text whenever the token has a dot |
| AuthGuard.ParseDecoded | src/app/guards/auth.guard.ts:67-70 | null when decoding or parsing fails, the parsed value otherwise |
| AuthGuard.DecodeToken | src/app/guards/auth.guard.ts:64-71 | null whenever `atob` rejects the segment's text |
| AuthGuard.DecodeTokenMeaning | src/app/guards/auth.guard.ts:64-71 | a three-segment token decodes to the JSON of its payload, and a token without a dot to null |
| AuthGuard.IsExpired | src/app/guards/auth.guard.ts:76-78 | only a value that reads as a number can be expired |
| AuthGuard.ExpiryIsPermanent | src/app/guards/auth.guard.ts:76-78 | a token expired at one instant is expired at every later one, and a payload without `exp` never expires |
| AuthGuard.NeedsRefresh | src/app/guards/auth.guard.ts:21 | a null or otherwise falsy payload always needs a renewal, and a readable payload without `exp` never does |
| AuthGuard.CheckRole | src/app/guards/auth.guard.ts:27-39 | open routes pass; on a restricted route an unreadable user throws, and otherwise the check passes iff the user's `rol` is a non-empty allowed name |
| AuthGuard.RedirectToLogin | src/app/guards/auth.guard.ts:83-87 | the whole store is emptied and the result is the login page |
| AuthGuard.TryRefreshToken | src/app/guards/auth.guard.ts:47-59 | the renewal request goes out iff the user parses, a refresh token is stored and the user has an id, and it is the one `refreshToken()` builds; true iff both new tokens were stored, which are then in the store; when false, the session is cleared, except when the stored user does not parse, which leaves the store as it was |
| AuthGuard.CanActivate | src/app/guards/auth.guard.ts:11-42 | without both tokens: login page, store emptied, no renewal. With a readable, unexpired token: no renewal, store unchanged, role verdict. Otherwise one renewal; if it fails, login page with the store emptied. The result allows the navigation iff both tokens are present, the token is valid or renewed, and the role check passes |
| AuthGuard.AlphabetRoundTrip | src/app/guards/auth.guard.ts:67 | rewriting a standard base64 text in the URL-safe alphabet and back gives it back |
| AuthGuard.DecodeTokenFixed | src/app/guards/auth.guard.ts:64-71 | null whenever `atob` rejects the segment rewritten in the standard alphabet |
| AuthGuard.UrlSafePayloadUnreadable | src/app/guards/auth.guard.ts:66-67 | as written, a token whose URL-safe payload contains '-' or '_' decodes to null and forces a renewal at every instant |
| AuthGuard.FixedDecodeReadsUrlSafe | src/app/guards/auth.guard.ts:64-71 | the intended decoder reads a URL-safe token as the original reads the same token in standard base64, so an unexpired token needs no renewal |
| AuthGuard.FixedDecodeAgrees | src/app/guards/auth.guard.ts:64-71 | on tokens without '-' or '_' the intended decoder and the one written agree |
| AuthInterceptor.Interception | src/app/interceptors/auth.interceptor.ts:6-39 | the corrected rule, in which the renewal request is not renewed again. The request goes out with the stored token. Only a 401 with a stored refresh token, on a request other than the renewal, leads to exactly one renewal. A failed renewal passes its error on; a renewal without a new access token passes the original 401 on. Otherwise the new token is stored and the original request is retried once with it, and the retry's reply is the result. At most three requests |
| AuthInterceptor.AttachToken | src/app/interceptors/auth.interceptor.ts:8-16 | the same request with an `Authorization: Bearer` header carrying the stored access token when there is one, and the request unchanged otherwise |
| AuthInterceptor.InterceptionKeepsSession | src/app/interceptors/auth.interceptor.ts:24-26 | only the access token may change in the store, and a present one stays present |
| AuthInterceptor.InterceptionAsWritten | src/app/interceptors/auth.interceptor.ts:19-37 | every run, finished or not, starts with the request carrying the stored token |
| AuthInterceptor.RefreshStorm | src/app/interceptors/auth.interceptor.ts:21-22 | as written, a 401 on both the request and the renewal never finishes: for any fuel, one request then one identical renewal per unit of fuel |
| AuthInterceptor.NoStormWhenExempt | src/app/interceptors/auth.interceptor.ts:21-35 | in that situation the intended interceptor sends two requests and passes the renewal's 401 on |
| AuthInterceptor.AsWrittenAgrees | src/app/interceptors/auth.interceptor.ts:19-37 | whenever the renewal is not answered with 401, the interceptor as written does exactly what the intended one does |
| AuthInterceptor.Intercept | src/app/interceptors/auth.interceptor.ts:6-39 | the requests sent, the result and the store afterwards are those of the intended interception |

## Left out

- Registration itself (`registrar`, `crearUsuario`, `finalizarRegistro`) is left out. It calls the WebAuthn platform API and waits on dialogs.
- `loginOAuth`, `irALogin`, `addBounceEffect` and `irPanelAdmin` are left out: they are navigation and DOM effects.
- `stringToArrayBuffer` is left out. It is `TextEncoder`, a foreign codec.
- `atob`, `btoa` and `JSON.parse` are parameters. Their own behaviour is not modelled, only what the code does with their results.
- Dialogs (`Swal`), console logging and router navigation are left out. A chosen route is returned as a value.
- Asynchrony is left out. Each reply is an input, and overlapping lookups or out-of-order replies are not modelled.
- `cargarUsuarios`, `cargarRoles` and `cargarCatalogos` are left out: they only load lists over HTTP. The reload after a successful save is left out too. `roles` is a field, set only by the constructor.
- The API base URL is dropped from request paths.
- The URL and headers that the profile service builds for the profile and password requests are left out. That service is not part of this model.
- The dashboard, login, forgot-password, OAuth, SMS and biometric services are not part of this model.
- JsValues.JsValue: numbers are integers and there are no arrays. Fractions, exponents, `Infinity` and hexadecimal literals are not modelled.
- JsValues.StringToNumber reads any text other than blanks and an optionally signed run of decimal digits as NaN. `Number()` would read more forms (fractions, exponents, `Infinity`, hexadecimal).
- JsValues.Member yields `undefined` where the program would throw a TypeError on `null` or `undefined` (for example `this.user.rol` after a null profile, or `r.id_rol` on a null role).
- AuthService.Logout assumes the returned observable is subscribed; clearing on the reply happens only then.
- The "No hay refresh token" error of the interceptor's own service (src/app/services/auth.ts:43) is not modelled. The interceptor checks the refresh token before asking for a renewal, so that error cannot arise from it.
- AuthInterceptor.InterceptionAsWritten: the fuel bounds how deeply renewals can nest. An unbounded chain shows up as a run that is still renewing whatever the fuel.
- AuthInterceptor.Interception is the corrected interceptor: it leaves the renewal request (`/auth/refresh`) alone and passes a 401 on the renewal to the caller, where the code as written intercepts the renewal and renews again. The as-written behaviour is AuthInterceptor.InterceptionAsWritten, with RefreshStorm and AsWrittenAgrees.
- AuthGuard.CanActivate and AuthInterceptor.Intercept follow the corrected rules given under Findings. The behaviour as written is stated by the members named there.
- AuthGuard.DecodeTokenMeaning takes as a premise that `atob("undefined")` throws. Under the forgiving-base64 decode of the HTML standard it does, because the text is nine characters long.

## Findings

| source | as written | input that shows it | evidently intended | confidence | as-written member | corrected member |
|---|---|---|---|---|---|---|
| src/app/interceptors/auth.interceptor.ts:21-22 | The renewal is requested through the application's HTTP client (src/app/services/auth.ts:45), which the interceptor wraps (src/app/app.config.ts:15). So the renewal request is intercepted too, and a 401 on it starts another renewal. The refresh token is never removed, so this repeats without end. | An access and a refresh token are stored, and the server answers 401 both to the request and to POST /auth/refresh (an expired refresh token). | At most one renewal and one retry, with the renewal's failure handed to the caller. | medium, not executed. It assumes the interceptor still wraps the renewal despite the second `provideHttpClient` call at src/app/app.config.ts:22. | AuthInterceptor.RefreshStorm | AuthInterceptor.NoStormWhenExempt |
| src/app/guards/auth.guard.ts:66-67 | `atob` decodes standard base64 (section 4 of RFC 4648). A token's payload segment is URL-safe base64 (section 5), so a payload containing '-' or '_' is rejected and the token reads as null. Such a token is renewed at every navigation, and the user is signed out whenever a renewal fails, however far off its expiry is. | The token `h.eyJzdWIiOiI_PiJ9.s`. Its payload `{"sub":"?>"}` is `eyJzdWIiOiI/PiJ9` in standard base64. | Read the segment in the URL-safe alphabet: map '-' to '+' and '_' to '/' before `atob`. | high, not executed | AuthGuard.UrlSafePayloadUnreadable | AuthGuard.FixedDecodeReadsUrlSafe |
