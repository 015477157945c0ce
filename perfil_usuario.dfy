/** The profile page of the signed-in user: which fields it shows and lets
    the user edit for each role, the profile update, the password change
    with its strength meter, and signing out. */
module PerfilUsuario {
  import opened JsValues
  import opened Http
  import Storage
  import PasswordStrength
  import opened AdminPanel

  /** The role names the page knows. */
  const NamedRoles: set<JsValue> := {Administrador, Alumno, Docente, Bibliotecario, Visitante}

  /** `mostrarCampo(campo)` for the profile's `rol`. */
  function MostrarCampo(rol: JsValue, campo: string): (r: bool)
    ensures r ==> rol in NamedRoles
  {
    if !Truthy(rol) then false
    else if rol == Administrador then true
    else if rol == Visitante then campo !in ["matricula", "carrera", "semestre"]
    else if rol == Bibliotecario then campo !in ["carrera", "semestre"]
    else if rol == Docente then campo != "semestre"
    else if rol == Alumno then true
    else false
  }

  /** `editable(campo)` for the profile's `rol`. */
  function Editable(rol: JsValue, campo: string): (r: bool)
    ensures campo == "correo" || campo == "telefono" ==> r
  {
    if rol == Administrador || rol == Visitante then true
    else campo in ["correo", "telefono"]
  }

  /** Administrador and Alumno see every field; each further role sees
      what the previous one sees minus one more field. */
  lemma VisibilityNested(rol: JsValue, campo: string)
    ensures rol == Administrador || rol == Alumno ==> MostrarCampo(rol, campo)
    ensures MostrarCampo(Docente, campo) <==> MostrarCampo(Alumno, campo) && campo != "semestre"
    ensures MostrarCampo(Bibliotecario, campo) <==> MostrarCampo(Docente, campo) && campo != "carrera"
    ensures MostrarCampo(Visitante, campo) <==> MostrarCampo(Bibliotecario, campo) && campo != "matricula"
  {
  }

  /** Administrador and Visitante may edit every field; every other role
      exactly correo and telefono. Visitante can edit even the fields the
      page hides from it. */
  lemma EditableByRole(rol: JsValue, campo: string)
    ensures rol == Administrador || rol == Visitante ==> Editable(rol, campo)
    ensures rol !in {Administrador, Visitante} ==> (Editable(rol, campo) <==> campo == "correo" || campo == "telefono")
    ensures Editable(Visitante, "matricula") && !MostrarCampo(Visitante, "matricula")
  {
  }

  /** For the five named roles the profile page and the administrator's
      form agree on which role-specific fields apply (matricula, carrera as
      id_carrera, semestre as id_semestre); for an empty or unknown role the
      page hides them while the form enables them. */
  lemma VisibilityMatchesAdminForm(rol: JsValue)
    ensures rol in NamedRoles ==>
      && MostrarCampo(rol, "matricula") == AdminPanel.CampoActivo(rol, "matricula")
      && MostrarCampo(rol, "carrera") == AdminPanel.CampoActivo(rol, "id_carrera")
      && MostrarCampo(rol, "semestre") == AdminPanel.CampoActivo(rol, "id_semestre")
    ensures rol !in NamedRoles ==>
      && !MostrarCampo(rol, "matricula") && AdminPanel.CampoActivo(rol, "matricula")
      && !MostrarCampo(rol, "carrera") && AdminPanel.CampoActivo(rol, "id_carrera")
      && !MostrarCampo(rol, "semestre") && AdminPanel.CampoActivo(rol, "id_semestre")
  {
  }

  /** The keys `guardarCambios` copies from the profile. */
  const ProfileKeys: set<string> := {"nombre", "a_paterno", "a_materno", "correo", "telefono"}

  /** The `data` object `guardarCambios` sends. */
  function ProfileUpdate(user: JsValue): (r: JsValue)
    ensures r.Obj? && r.fields.Keys == ProfileKeys
    ensures forall k | k in ProfileKeys :: r.fields[k] == Member(user, k)
  {
    Obj(map[
      "nombre" := Member(user, "nombre"),
      "a_paterno" := Member(user, "a_paterno"),
      "a_materno" := Member(user, "a_materno"),
      "correo" := Member(user, "correo"),
      "telefono" := Member(user, "telefono")])
  }

  /** Nothing outside the five keys reaches the update: whatever the profile
      holds in `rol`, `matricula` or any other property, the same data is
      sent. */
  lemma ProfileUpdateIgnoresOtherKeys(fields: map<string, JsValue>, k: string, v: JsValue)
    requires k !in ProfileKeys
    ensures ProfileUpdate(Obj(fields[k := v])) == ProfileUpdate(Obj(fields))
  {
    var a := ProfileUpdate(Obj(fields[k := v]));
    var b := ProfileUpdate(Obj(fields));
    assert a.fields.Keys == b.fields.Keys;
    forall key | key in ProfileKeys ensures a.fields[key] == b.fields[key] {
      assert Member(Obj(fields[k := v]), key) == Member(Obj(fields), key);
    }
  }

  /** The body `changePassword(actual, nueva)` sends. */
  function PasswordChangeBody(actual: string, nueva: string): (r: JsValue)
    ensures Member(r, "contrasenaActual") == Str(actual) && Member(r, "nuevaContrasena") == Str(nueva)
  {
    Obj(map["contrasenaActual" := Str(actual), "nuevaContrasena" := Str(nueva)])
  }

  class PerfilUsuarioComponent {
    var user: JsValue
    var cargando: bool
    var editando: bool
    var contrasenaActual: string
    var nuevaContrasena: string
    var passwordStage: PasswordStrength.StageValue
    var showPasswordTip: bool

    /** The stored stage is the one the meter gives the new password. */
    ghost predicate StageCurrent()
      reads this
    {
      passwordStage == PasswordStrength.Stage(nuevaContrasena)
    }

    constructor ()
      ensures user == Obj(map[]) && !cargando && !editando
      ensures contrasenaActual == "" && nuevaContrasena == ""
      ensures passwordStage == 0 && !showPasswordTip
      ensures StageCurrent()
    {
      user := Obj(map[]);
      cargando, editando := false, false;
      contrasenaActual, nuevaContrasena := "", "";
      passwordStage, showPasswordTip := 0, false;
    }

    /** `obtenerPerfil()` with the reply to the profile request as input:
        the profile is replaced only by a reply, and a 401 sends the user to
        the login page. */
    method ObtenerPerfil(reply: Outcome) returns (toLogin: bool)
      modifies this`user, this`cargando
      ensures reply.Ok? ==> user == reply.value
      ensures reply.Err? ==> user == old(user)
      ensures toLogin <==> reply == Err(Status(401))
      ensures !cargando
    {
      cargando := true;
      toLogin := false;
      match reply {
        case Ok(res) =>
          user := res;
        case Err(err) =>
          if err.Status? && err.code == 401 {
            toLogin := true;
          }
      }
      cargando := false;
    }

    /** `habilitarEdicion()` */
    method HabilitarEdicion()
      modifies this`editando
      ensures editando
    {
      editando := true;
    }

    /** `guardarCambios()` with the reply to the update as input: edit mode
        ends only when the update succeeds. */
    method GuardarCambios(reply: Outcome) returns (sent: JsValue)
      modifies this`editando, this`cargando
      ensures sent == ProfileUpdate(user)
      ensures editando == (old(editando) && reply.Err?)
      ensures !cargando
    {
      cargando := true;
      sent := ProfileUpdate(user);
      if reply.Ok? {
        editando := false;
      }
      cargando := false;
    }

    /** `validarPasswordFuerte()` */
    function ValidarPasswordFuerte(): (ok: bool)
      reads this
      ensures ok <==> passwordStage == 3
      ensures StageCurrent() ==> (ok <==> PasswordStrength.AllCriteria(nuevaContrasena))
    {
      passwordStage == 3
    }

    /** `onPasswordInput()` */
    method OnPasswordInput()
      modifies this`passwordStage, this`showPasswordTip
      ensures showPasswordTip
      ensures passwordStage == PasswordStrength.Stage(nuevaContrasena)
      ensures StageCurrent()
    {
      showPasswordTip := true;
      passwordStage := PasswordStrength.Stage(nuevaContrasena);
    }

    /** `cambiarContrasena()` with the reply to the change as input. Nothing
        happens unless both passwords are filled in and the meter stands at
        its top stage; a successful change clears both fields and the meter. */
    method CambiarContrasena(reply: Outcome) returns (sent: Option<JsValue>)
      modifies this
      ensures var attempted := old(contrasenaActual) != "" && old(nuevaContrasena) != "" && old(passwordStage) == 3;
        && (sent.Some? <==> attempted)
        && (!attempted ==> unchanged(this))
        && (attempted ==>
              && sent.value == PasswordChangeBody(old(contrasenaActual), old(nuevaContrasena))
              && !cargando && user == old(user) && editando == old(editando)
              && (reply.Ok? ==>
                    contrasenaActual == "" && nuevaContrasena == "" && passwordStage == 0 && !showPasswordTip)
              && (reply.Err? ==>
                    && contrasenaActual == old(contrasenaActual) && nuevaContrasena == old(nuevaContrasena)
                    && passwordStage == old(passwordStage) && showPasswordTip == old(showPasswordTip)))
      ensures old(StageCurrent()) && sent.Some? ==> PasswordStrength.AllCriteria(old(nuevaContrasena))
      ensures old(StageCurrent()) ==> StageCurrent()
    {
      if contrasenaActual == "" || nuevaContrasena == "" {
        return None;
      }
      if !ValidarPasswordFuerte() {
        return None;
      }
      cargando := true;
      sent := Some(PasswordChangeBody(contrasenaActual, nuevaContrasena));
      if reply.Ok? {
        contrasenaActual := "";
        nuevaContrasena := "";
        passwordStage := 0;
        showPasswordTip := false;
      }
      cargando := false;
    }
  }

  /** `cerrarSesion()` once the confirmation dialog has been answered: a
      confirmed sign-out empties the whole store and goes to the login page;
      a declined one changes nothing. */
  method CerrarSesion(store: Storage.LocalStorage, confirmed: bool) returns (route: Option<string>)
    modifies store
    ensures confirmed ==> store.items == map[] && route == Some("/login")
    ensures !confirmed ==> store.items == old(store.items) && route == None
  {
    route := None;
    if confirmed {
      store.Clear();
      route := Some("/login");
    }
  }
}
