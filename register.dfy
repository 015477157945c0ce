/** The three-step registration wizard: personal data (step 1), password
    (step 2) and the optional fingerprint enrolment (step 3), with the local
    e-mail and phone validators that gate the first step and the password
    meter that gates the second. */
module Register {
  import opened JsValues
  import opened Http
  import PasswordStrength

  /** The type `1 | 2 | 3` of the wizard's `step`. */
  type WizardStep = s: int | 1 <= s <= 3 witness 1

  datatype RegisterForm = RegisterForm(
    nombre: string,
    apaterno: string,
    amaterno: string,
    correo: string,
    telefono: string,
    contrasena: string,
    confirmPassword: string)

  /** The one biometric kind the wizard offers. */
  const Huella: string := "HUELLA"

  /** A character of the class `[^\s@]`. */
  predicate IsEmailChar(c: char)
  {
    !IsJsWhiteSpace(c) && c != '@'
  }

  predicate AllEmailChars(s: string)
  {
    forall i | 0 <= i < |s| :: IsEmailChar(s[i])
  }

  /** `/^[^\s@]+@[^\s@]+\.[^\s@]+$/.test(s)`: three non-empty runs of
      characters other than blanks and '@', the first two joined by '@' and
      the last two by '.'. */
  predicate EmailPatternMatches(s: string)
    ensures EmailPatternMatches(s) ==> |s| >= 5
  {
    exists a, d | 0 < a < |s| && a + 1 < d < |s| - 1 ::
      && s[a] == '@'
      && s[d] == '.'
      && AllEmailChars(s[..a])
      && AllEmailChars(s[a + 1..d])
      && AllEmailChars(s[d + 1..])
  }

  /** What the e-mail pattern accepts, said directly: no blank anywhere,
      exactly one '@' with something before it, and a '.' after it that is
      neither the first nor the last character of the domain. */
  ghost predicate WellFormedEmail(s: string)
  {
    && (forall i | 0 <= i < |s| :: !IsJsWhiteSpace(s[i]))
    && exists a | 0 < a < |s| ::
      && s[a] == '@'
      && (forall j | 0 <= j < |s| && j != a :: s[j] != '@')
      && exists d | a + 1 < d < |s| - 1 :: s[d] == '.'
  }

  lemma EmailPatternMeaning(s: string)
    ensures EmailPatternMatches(s) <==> WellFormedEmail(s)
  {
    if EmailPatternMatches(s) {
      MatchedEmailIsWellFormed(s);
    }
    if WellFormedEmail(s) {
      WellFormedEmailMatches(s);
    }
  }

  lemma MatchedEmailIsWellFormed(s: string)
    requires EmailPatternMatches(s)
    ensures WellFormedEmail(s)
  {
    var a, d :| 0 < a < |s| && a + 1 < d < |s| - 1 && s[a] == '@' && s[d] == '.'
      && AllEmailChars(s[..a]) && AllEmailChars(s[a + 1..d]) && AllEmailChars(s[d + 1..]);
    RunsCoverText(s, a, d);
    assert forall i | 0 <= i < |s| :: !IsJsWhiteSpace(s[i]);
    assert forall j | 0 <= j < |s| && j != a :: s[j] != '@';
    assert a + 1 < d < |s| - 1 && s[d] == '.';
  }

  /** The three runs of the pattern cover every character but the '@'. */
  lemma RunsCoverText(s: string, a: nat, d: nat)
    requires a < d < |s|
    requires AllEmailChars(s[..a]) && AllEmailChars(s[a + 1..d]) && AllEmailChars(s[d + 1..])
    requires s[d] == '.'
    ensures forall i | 0 <= i < |s| && i != a :: IsEmailChar(s[i])
  {
    forall i | 0 <= i < |s| && i != a ensures IsEmailChar(s[i]) {
      if i < a {
        assert s[..a][i] == s[i];
      } else if a < i < d {
        assert s[a + 1..d][i - a - 1] == s[i];
      } else if d < i {
        assert s[d + 1..][i - d - 1] == s[i];
      }
    }
  }

  lemma WellFormedEmailMatches(s: string)
    requires WellFormedEmail(s)
    ensures EmailPatternMatches(s)
  {
    var a :| 0 < a < |s| && s[a] == '@' && (forall j | 0 <= j < |s| && j != a :: s[j] != '@')
      && exists d | a + 1 < d < |s| - 1 :: s[d] == '.';
    var d :| a + 1 < d < |s| - 1 && s[d] == '.';
    assert AllEmailChars(s[..a]);
    assert AllEmailChars(s[a + 1..d]);
    assert AllEmailChars(s[d + 1..]);
  }

  /** `/^[0-9]{10}$/.test(s)`: exactly ten ASCII digits. */
  predicate PhonePatternMatches(s: string)
    ensures PhonePatternMatches(s) ==> JsLength(s) == 10
  {
    |s| == 10 && forall i | 0 <= i < |s| :: IsDigit(s[i])
  }

  /** A phone number the pattern accepts is a number to `Number()` as well:
      its ten digits read as their decimal value. */
  lemma PhoneReadsAsNumber(s: string)
    requires PhonePatternMatches(s)
    ensures IsDigits(s) && StringToNumber(s) == Some(DecimalValue(s))
  {
    TrimmedDigits(s, s);
    assert s[0] != '-' && s[0] != '+';
  }

  /** Which of the three checks of `validarDatosPersonales` stops the step
      (each shows its own dialog), or that all three pass. */
  datatype PersonalDataVerdict = Accepted | IncompleteFields | EmailRejected | PhoneRejected

  predicate AllFilled(form: RegisterForm)
  {
    form.nombre != "" && form.apaterno != "" && form.amaterno != "" && form.correo != "" && form.telefono != ""
  }

  function CheckPersonalData(form: RegisterForm, emailValid: Option<bool>, emailExists: bool,
                             phoneValid: Option<bool>, phoneExists: bool): (v: PersonalDataVerdict)
    ensures v == Accepted <==>
      AllFilled(form) && emailValid == Some(true) && !emailExists && phoneValid == Some(true) && !phoneExists
    ensures v == IncompleteFields <==> !AllFilled(form)
    ensures v == EmailRejected <==> AllFilled(form) && (emailValid != Some(true) || emailExists)
    ensures v == PhoneRejected <==>
      AllFilled(form) && emailValid == Some(true) && !emailExists && (phoneValid != Some(true) || phoneExists)
  {
    if !AllFilled(form) then IncompleteFields
    else if !Truthy(FromBool(emailValid)) || emailExists then EmailRejected
    else if !Truthy(FromBool(phoneValid)) || phoneExists then PhoneRejected
    else Accepted
  }

  /** A `boolean | null` field as a JavaScript value. */
  function FromBool(flag: Option<bool>): JsValue
  {
    match flag
    case None => Null
    case Some(b) => Bool(b)
  }

  /** `!!res?.exists` for a reply to an existence lookup; an error counts as
      "does not exist". */
  function ExistsFlag(reply: Outcome): bool
  {
    match reply
    case Ok(res) => Truthy(Member(res, "exists"))
    case Err(_) => false
  }

  class RegisterComponent {
    var step: WizardStep
    var cargando: bool
    var form: RegisterForm
    var emailValid: Option<bool>
    var emailExists: bool
    var phoneValid: Option<bool>
    var phoneExists: bool
    var passwordStage: PasswordStrength.StageValue
    var showPasswordTip: bool
    var enrollBiometria: bool
    var tipoBiometria: Option<string>

    /** The fingerprint is enrolled exactly when HUELLA is the chosen kind,
        and HUELLA is the only kind there is. */
    ghost predicate BiometricConsistent()
      reads this
    {
      && enrollBiometria == (tipoBiometria == Some(Huella))
      && (tipoBiometria == None || tipoBiometria == Some(Huella))
    }

    constructor ()
      ensures step == 1 && !cargando
      ensures form == RegisterForm("", "", "", "", "", "", "")
      ensures emailValid == None && !emailExists && phoneValid == None && !phoneExists
      ensures passwordStage == 0 && !showPasswordTip
      ensures !enrollBiometria && tipoBiometria == None
      ensures BiometricConsistent()
    {
      step := 1;
      cargando := false;
      form := RegisterForm("", "", "", "", "", "", "");
      emailValid, emailExists := None, false;
      phoneValid, phoneExists := None, false;
      passwordStage, showPasswordTip := 0, false;
      enrollBiometria, tipoBiometria := false, None;
    }

    /** `validarDatosPersonales()` */
    function ValidarDatosPersonales(): (ok: bool)
      reads this
      ensures ok ==> AllFilled(form) && emailValid == Some(true) && phoneValid == Some(true)
      ensures ok ==> !emailExists && !phoneExists
    {
      CheckPersonalData(form, emailValid, emailExists, phoneValid, phoneExists) == Accepted
    }

    /** `validarPasswordFuerte()`: reads the stored stage, it does not
        recompute it. */
    function ValidarPasswordFuerte(): (ok: bool)
      reads this
      ensures ok ==> passwordStage == 3 && form.contrasena == form.confirmPassword
      ensures passwordStage == PasswordStrength.Stage(form.contrasena) ==>
        (ok <==> PasswordStrength.AllCriteria(form.contrasena) && form.contrasena == form.confirmPassword)
    {
      passwordStage == 3 && form.contrasena == form.confirmPassword
    }

    method NextStep()
      modifies this`step
      ensures step == old(step) || step == old(step) + 1
      ensures step == old(step) + 1 <==>
        && old(step) < 3
        && (old(step) == 1 ==> old(ValidarDatosPersonales()))
        && (old(step) == 2 ==> old(ValidarPasswordFuerte()))
    {
      if step == 1 && !ValidarDatosPersonales() {
        return;
      }
      if step == 2 && !ValidarPasswordFuerte() {
        return;
      }
      step := if step < 3 then step + 1 else 3;
    }

    method PrevStep()
      modifies this`step
      ensures step == if old(step) > 1 then old(step) - 1 else old(step)
    {
      if step > 1 {
        step := step - 1;
      }
    }

    /** `toggleBiometric(tipo)`: only HUELLA selects; anything else, `null`
        included, clears the choice. */
    method ToggleBiometric(tipo: Option<string>)
      modifies this`enrollBiometria, this`tipoBiometria
      ensures enrollBiometria == (tipo == Some(Huella))
      ensures tipoBiometria == if tipo == Some(Huella) then Some(Huella) else None
      ensures BiometricConsistent()
    {
      if tipo == Some(Huella) {
        enrollBiometria := true;
        tipoBiometria := Some(Huella);
      } else {
        enrollBiometria := false;
        tipoBiometria := None;
      }
    }

    /** `verificarCorreoBD()` with the lookup's reply as input. */
    method VerificarCorreoBD(reply: Outcome) returns (sent: Request)
      modifies this`emailExists
      ensures sent == Request("GET", CheckEmailPath + form.correo, map[], Undefined)
      ensures emailExists == ExistsFlag(reply)
    {
      sent := Request("GET", CheckEmailPath + form.correo, map[], Undefined);
      emailExists := ExistsFlag(reply);
    }

    /** `verificarTelefonoBD()` with the lookup's reply as input. */
    method VerificarTelefonoBD(reply: Outcome) returns (sent: Request)
      modifies this`phoneExists
      ensures sent == Request("GET", CheckPhonePath + form.telefono, map[], Undefined)
      ensures phoneExists == ExistsFlag(reply)
    {
      sent := Request("GET", CheckPhonePath + form.telefono, map[], Undefined);
      phoneExists := ExistsFlag(reply);
    }

    /** `validarCorreoLocal()`: the existence lookup is requested only for an
        address the pattern accepts. */
    method ValidarCorreoLocal(reply: Outcome) returns (sent: Option<Request>)
      modifies this`emailValid, this`emailExists
      ensures emailValid == Some(WellFormedEmail(form.correo))
      ensures sent.Some? <==> WellFormedEmail(form.correo)
      ensures sent.Some? ==> emailExists == ExistsFlag(reply)
      ensures sent.None? ==> emailExists == old(emailExists)
    {
      var matches := EmailPatternMatches(form.correo);
      EmailPatternMeaning(form.correo);
      emailValid := Some(matches);
      sent := None;
      if matches {
        var request := VerificarCorreoBD(reply);
        sent := Some(request);
      }
    }

    /** `validarTelefonoLocal()`: the existence lookup is requested only for
        ten digits. */
    method ValidarTelefonoLocal(reply: Outcome) returns (sent: Option<Request>)
      modifies this`phoneValid, this`phoneExists
      ensures phoneValid == Some(PhonePatternMatches(form.telefono))
      ensures sent.Some? <==> PhonePatternMatches(form.telefono)
      ensures sent.Some? ==> phoneExists == ExistsFlag(reply)
      ensures sent.None? ==> phoneExists == old(phoneExists)
    {
      var matches := PhonePatternMatches(form.telefono);
      phoneValid := Some(matches);
      sent := None;
      if matches {
        var request := VerificarTelefonoBD(reply);
        sent := Some(request);
      }
    }

    /** `onPasswordInput()` */
    method OnPasswordInput()
      modifies this`passwordStage, this`showPasswordTip
      ensures showPasswordTip
      ensures passwordStage == PasswordStrength.Stage(form.contrasena)
    {
      showPasswordTip := true;
      passwordStage := PasswordStrength.Stage(form.contrasena);
    }
  }
}
