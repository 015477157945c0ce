/** The administrator's user form: which fields are active for the chosen
    role, which fields each role must fill in, and the in-place clean-up of
    the fields a role does not use before the form is sent. */
module AdminPanel {
  import opened JsValues
  import opened Http

  /** The form object `nuevoUsuario`, property by property. */
  type Form = map<string, JsValue>

  /** `form.key`, `undefined` when the property is missing. */
  function Field(form: Form, key: string): JsValue
  {
    if key in form then form[key] else Undefined
  }

  const Administrador: JsValue := Str("Administrador")
  const Alumno: JsValue := Str("Alumno")
  const Docente: JsValue := Str("Docente")
  const Bibliotecario: JsValue := Str("Bibliotecario")
  const Visitante: JsValue := Str("Visitante")

  /** The five role names are five different values. */
  lemma RoleNamesDistinct()
    ensures Administrador != Alumno && Administrador != Docente && Administrador != Bibliotecario
    ensures Administrador != Visitante && Alumno != Docente && Alumno != Bibliotecario
    ensures Alumno != Visitante && Docente != Bibliotecario && Docente != Visitante
    ensures Bibliotecario != Visitante
  {
    assert "Administrador"[1] != "Alumno"[1];
    assert "Administrador"[0] != "Docente"[0] && "Administrador"[0] != "Bibliotecario"[0];
    assert "Administrador"[0] != "Visitante"[0] && "Alumno"[0] != "Docente"[0];
    assert "Alumno"[0] != "Bibliotecario"[0] && "Alumno"[0] != "Visitante"[0];
    assert "Docente"[0] != "Bibliotecario"[0] && "Docente"[0] != "Visitante"[0];
    assert "Bibliotecario"[0] != "Visitante"[0];
  }

  /** The role names for which some field is inactive. */
  const RestrictedRoles: set<JsValue> := {Alumno, Docente, Bibliotecario, Visitante}

  const FormKeys: set<string> := {
    "id_usuario", "nombre", "a_paterno", "a_materno", "correo", "telefono",
    "contrasena", "matricula", "id_rol", "id_carrera", "id_semestre", "estado"
  }

  /** `resetForm()`: no id, every text field empty, state "Activo". */
  function ResetForm(): (f: Form)
    ensures f.Keys == FormKeys
    ensures f["id_usuario"] == Null && f["estado"] == Str("Activo")
    ensures forall k | k in f && k != "id_usuario" && k != "estado" :: f[k] == Str("")
  {
    map[
      "id_usuario" := Null, "nombre" := Str(""), "a_paterno" := Str(""), "a_materno" := Str(""),
      "correo" := Str(""), "telefono" := Str(""), "contrasena" := Str(""), "matricula" := Str(""),
      "id_rol" := Str(""), "id_carrera" := Str(""), "id_semestre" := Str(""), "estado" := Str("Activo")
    ]
  }

  /** `r.id_rol === Number(idRol)`; NaN equals nothing. */
  predicate RoleMatches(role: JsValue, idRol: JsValue)
  {
    match ToNumber(idRol)
    case None => false
    case Some(n) => Member(role, "id_rol") == Num(n)
  }

  /** `roles.find(...)`, as the index of the first match. */
  function FindRole(roles: seq<JsValue>, idRol: JsValue): (r: Option<nat>)
    ensures r.Some? ==> r.value < |roles| && RoleMatches(roles[r.value], idRol)
    ensures r.Some? ==> forall j | 0 <= j < r.value :: !RoleMatches(roles[j], idRol)
    ensures r.None? ==> forall j | 0 <= j < |roles| :: !RoleMatches(roles[j], idRol)
  {
    if roles == [] then None
    else if RoleMatches(roles[0], idRol) then Some(0)
    else
      match FindRole(roles[1..], idRol)
      case None => None
      case Some(k) => Some(k + 1)
  }

  /** `getRolNombre(idRol)`: the `nombre_rol` of the first role whose id is
      the numeric value of `idRol`, or the empty string. */
  function GetRolNombre(roles: seq<JsValue>, idRol: JsValue): (r: JsValue)
    ensures (forall j | 0 <= j < |roles| :: !RoleMatches(roles[j], idRol)) ==> r == Str("")
    ensures forall k | 0 <= k < |roles| && RoleMatches(roles[k], idRol) ::
      (forall j | 0 <= j < k :: !RoleMatches(roles[j], idRol)) ==> r == Member(roles[k], "nombre_rol")
  {
    match FindRole(roles, idRol)
    case None => Str("")
    case Some(k) => Member(roles[k], "nombre_rol")
  }

  const AlumnoFields: seq<string> := [
    "nombre", "a_paterno", "a_materno", "correo", "telefono", "contrasena",
    "matricula", "id_carrera", "id_semestre", "estado"]
  const DocenteFields: seq<string> := [
    "nombre", "a_paterno", "a_materno", "correo", "telefono", "contrasena",
    "matricula", "id_carrera", "estado"]
  const BibliotecarioFields: seq<string> := [
    "nombre", "a_paterno", "a_materno", "correo", "telefono", "contrasena",
    "matricula", "estado"]
  const VisitanteFields: seq<string> := [
    "nombre", "a_paterno", "a_materno", "correo", "telefono", "contrasena", "estado"]

  /** `campoActivo(campo)` once the role name has been looked up. */
  function CampoActivo(rol: JsValue, campo: string): (r: bool)
    ensures !r ==> rol in RestrictedRoles && campo !in VisitanteFields
  {
    if !Truthy(rol) then true
    else if rol == Administrador then true
    else if rol == Alumno then campo in AlumnoFields
    else if rol == Docente then campo in DocenteFields
    else if rol == Bibliotecario then campo in BibliotecarioFields
    else if rol == Visitante then campo in VisitanteFields
    else true
  }

  /** Before a role is chosen, for Administrador and for any unknown name
      every field is active; Alumno has exactly its ten fields, and each
      further role loses one more: semestre, then carrera, then matricula. */
  lemma CampoActivoByRole(rol: JsValue, campo: string)
    ensures rol !in RestrictedRoles ==> CampoActivo(rol, campo)
    ensures CampoActivo(Alumno, campo) <==> campo in AlumnoFields
    ensures CampoActivo(Docente, campo) <==> CampoActivo(Alumno, campo) && campo != "id_semestre"
    ensures CampoActivo(Bibliotecario, campo) <==> CampoActivo(Docente, campo) && campo != "id_carrera"
    ensures CampoActivo(Visitante, campo) <==> CampoActivo(Bibliotecario, campo) && campo != "matricula"
  {
  }

  predicate BasicsFilled(u: Form)
  {
    Truthy(Field(u, "nombre")) && Truthy(Field(u, "correo")) && Truthy(Field(u, "id_rol"))
  }

  /** The fields `guardarUsuario` insists on for a role, beyond nombre,
      correo and id_rol. */
  predicate RoleFieldsFilled(rol: JsValue, u: Form)
  {
    if rol == Alumno then
      Truthy(Field(u, "id_carrera")) && Truthy(Field(u, "id_semestre"))
      && Truthy(Field(u, "matricula")) && Truthy(Field(u, "telefono"))
    else if rol == Docente then
      Truthy(Field(u, "id_carrera")) && Truthy(Field(u, "matricula")) && Truthy(Field(u, "telefono"))
    else if rol == Bibliotecario then
      Truthy(Field(u, "matricula")) && Truthy(Field(u, "telefono"))
    else true
  }

  /** The three fields whose use depends on the role. */
  const RoleSpecificKeys: set<string> := {"matricula", "id_carrera", "id_semestre"}

  /** The form as `guardarUsuario` leaves it after setting to null the
      fields the role does not use. */
  function NormalisedForm(u: Form, rol: JsValue): (r: Form)
    ensures u.Keys <= r.Keys <= u.Keys + RoleSpecificKeys
  {
    if rol == Docente then u["id_semestre" := Null]
    else if rol == Bibliotecario then u["id_carrera" := Null]["id_semestre" := Null]
    else if rol == Visitante then u["id_carrera" := Null]["id_semestre" := Null]["matricula" := Null]
    else u
  }

  /** The form that is sent nulls exactly the role-specific fields the form
      shows as inactive for that role, and keeps every other entry. */
  lemma NormalisedFormMeaning(u: Form, rol: JsValue)
    ensures forall k | k in RoleSpecificKeys ::
      Field(NormalisedForm(u, rol), k) == if CampoActivo(rol, k) then Field(u, k) else Null
    ensures forall k | k !in RoleSpecificKeys :: Field(NormalisedForm(u, rol), k) == Field(u, k)
    ensures NormalisedForm(u, rol).Keys == u.Keys + (set k | k in RoleSpecificKeys && !CampoActivo(rol, k))
  {
    var inactive := set k | k in RoleSpecificKeys && !CampoActivo(rol, k);
    if rol == Docente {
      assert inactive == {"id_semestre"};
    } else if rol == Bibliotecario {
      assert inactive == {"id_carrera", "id_semestre"};
    } else if rol == Visitante {
      assert inactive == {"id_carrera", "id_semestre", "matricula"};
    } else {
      assert inactive == {};
    }
  }

  /** Normalising twice changes nothing more. */
  lemma NormalisedFormIdempotent(u: Form, rol: JsValue)
    ensures NormalisedForm(NormalisedForm(u, rol), rol) == NormalisedForm(u, rol)
  {
  }

  /** No required field is one the role deactivates: whatever an inactive
      field holds has no bearing on whether the form passes. */
  lemma RequiredFieldsAreActive(rol: JsValue, u: Form, k: string, v: JsValue)
    requires !CampoActivo(rol, k)
    ensures RoleFieldsFilled(rol, u[k := v]) == RoleFieldsFilled(rol, u)
  {
  }

  /** So the form that is sent would pass the same checks again. */
  lemma NormalisedFormStillFilled(u: Form, rol: JsValue)
    ensures BasicsFilled(NormalisedForm(u, rol)) == BasicsFilled(u)
    ensures RoleFieldsFilled(rol, NormalisedForm(u, rol)) == RoleFieldsFilled(rol, u)
  {
  }

  datatype SaveRequest = Create(payload: Form) | Update(id: JsValue, payload: Form)

  /** The two states `cambiarEstado` can set. */
  type EstadoUsuario = s: string | s == "Activo" || s == "Inactivo" witness "Activo"

  /** `cambiarEstado(usuario, nuevoEstado)` once the confirmation dialog has
      been answered: only a confirmed change is sent, as an update of that
      user carrying nothing but the new state. */
  function CambiarEstado(usuario: JsValue, nuevoEstado: EstadoUsuario, confirmed: bool): (sent: Option<SaveRequest>)
    ensures sent.Some? <==> confirmed
    ensures sent.Some? ==> sent.value.Update? && sent.value.id == Member(usuario, "id_usuario")
    ensures sent.Some? ==> sent.value.payload.Keys == {"estado"} && sent.value.payload["estado"] == Str(nuevoEstado)
  {
    if confirmed then Some(Update(Member(usuario, "id_usuario"), map["estado" := Str(nuevoEstado)])) else None
  }

  /** Which dialog stops `guardarUsuario`, or the request it sends. */
  datatype SaveOutcome = MissingBasics | MissingRoleFields | Submitted(request: SaveRequest)

  class AdminPanelComponent {
    var roles: seq<JsValue>
    var cargando: bool
    var editando: bool
    var nuevoUsuario: Form

    constructor ()
      ensures roles == [] && !cargando && !editando
      ensures nuevoUsuario == ResetForm()
    {
      roles := [];
      cargando, editando := false, false;
      nuevoUsuario := ResetForm();
    }

    /** `editarUsuario(u)`: the form becomes a copy of the row. */
    method EditarUsuario(u: Form)
      modifies this`nuevoUsuario, this`editando
      ensures nuevoUsuario == u && editando
    {
      nuevoUsuario := u;
      editando := true;
    }

    /** `guardarUsuario()` with the reply to the create or update request as
        input. A rejected form is left as it was; an accepted one has the
        fields its role does not use nulled in place before it is sent, and
        keeps them nulled if the request fails. */
    method GuardarUsuario(reply: Outcome) returns (outcome: SaveOutcome)
      modifies this`nuevoUsuario, this`editando
      ensures var u := old(nuevoUsuario);
        var rol := GetRolNombre(roles, Field(u, "id_rol"));
        var sentForm := NormalisedForm(u, rol);
        && (!BasicsFilled(u) ==>
              outcome == MissingBasics && nuevoUsuario == u && editando == old(editando))
        && (BasicsFilled(u) && !RoleFieldsFilled(rol, u) ==>
              outcome == MissingRoleFields && nuevoUsuario == u && editando == old(editando))
        && (BasicsFilled(u) && RoleFieldsFilled(rol, u) ==>
              && outcome == Submitted(
                   if Truthy(Field(u, "id_usuario")) then Update(Field(u, "id_usuario"), sentForm)
                   else Create(sentForm))
              && (reply.Ok? ==> nuevoUsuario == ResetForm() && !editando)
              && (reply.Err? ==> nuevoUsuario == sentForm && editando == old(editando)))
    {
      var isEdit := Truthy(Field(nuevoUsuario, "id_usuario"));
      var rol := GetRolNombre(roles, Field(nuevoUsuario, "id_rol"));
      ghost var u := nuevoUsuario;
      RoleNamesDistinct();

      if !Truthy(Field(nuevoUsuario, "nombre")) || !Truthy(Field(nuevoUsuario, "correo"))
         || !Truthy(Field(nuevoUsuario, "id_rol")) {
        return MissingBasics;
      }

      if rol == Administrador {
      } else if rol == Alumno {
        if !Truthy(Field(nuevoUsuario, "id_carrera")) || !Truthy(Field(nuevoUsuario, "id_semestre"))
           || !Truthy(Field(nuevoUsuario, "matricula")) || !Truthy(Field(nuevoUsuario, "telefono")) {
          return MissingRoleFields;
        }
      } else if rol == Docente {
        if !Truthy(Field(nuevoUsuario, "id_carrera")) || !Truthy(Field(nuevoUsuario, "matricula"))
           || !Truthy(Field(nuevoUsuario, "telefono")) {
          return MissingRoleFields;
        }
        nuevoUsuario := nuevoUsuario["id_semestre" := Null];
      } else if rol == Bibliotecario {
        if !Truthy(Field(nuevoUsuario, "matricula")) || !Truthy(Field(nuevoUsuario, "telefono")) {
          return MissingRoleFields;
        }
        nuevoUsuario := nuevoUsuario["id_carrera" := Null];
        nuevoUsuario := nuevoUsuario["id_semestre" := Null];
      } else if rol == Visitante {
        nuevoUsuario := nuevoUsuario["id_carrera" := Null];
        nuevoUsuario := nuevoUsuario["id_semestre" := Null];
        nuevoUsuario := nuevoUsuario["matricula" := Null];
      }

      assert nuevoUsuario == NormalisedForm(u, rol);
      assert Field(nuevoUsuario, "id_usuario") == Field(u, "id_usuario");
      var request := if isEdit then Update(Field(nuevoUsuario, "id_usuario"), nuevoUsuario)
                     else Create(nuevoUsuario);
      outcome := Submitted(request);
      if reply.Ok? {
        nuevoUsuario := ResetForm();
        editando := false;
      }
    }
  }
}
