/** The institutional link form: its starting values, which profiles become
    organisers, the profile update it sends and the matrícula field's
    visibility. */
module Institution {
  import opened Js
  import Notifications

  /** The institutional fields of the signed-in user, each possibly unset. */
  datatype UserData = UserData(instituicao: Option<string>, campus: Option<string>, perfil: Option<string>,
                               matricula: Option<string>)

  datatype Form = Form(instituicao: string, campus: string, perfil: string, matricula: string)

  /** The form's starting values: the user's, or `IFAL`, no campus, `aluno`
      and no matrícula. */
  function InitialForm(user: Option<UserData>): (f: Form)
    ensures user.None? ==> f == Form("IFAL", "", "aluno", "")
    ensures user.Some? ==>
      (f.instituicao == StrOr(user.value.instituicao, "IFAL") && f.campus == StrOr(user.value.campus, "")
       && f.perfil == StrOr(user.value.perfil, "aluno") && f.matricula == StrOr(user.value.matricula, ""))
  {
    match user
    case None => Form("IFAL", "", "aluno", "")
    case Some(u) => Form(StrOr(u.instituicao, "IFAL"), StrOr(u.campus, ""), StrOr(u.perfil, "aluno"), StrOr(u.matricula, ""))
  }

  /** Staff and managers become organisers. */
  predicate IsOrganizer(perfil: string) {
    perfil == "servidor" || perfil == "gestor"
  }

  /** The update handed to `updateProfile`. */
  datatype ProfileUpdate = ProfileUpdate(instituicao: string, campus: string, perfil: string, matricula: string,
                                         isOrganizer: bool, status: string)

  function Payload(f: Form): (u: ProfileUpdate)
    ensures u.instituicao == f.instituicao && u.campus == f.campus && u.perfil == f.perfil && u.matricula == f.matricula
    ensures u.isOrganizer <==> f.perfil == "servidor" || f.perfil == "gestor"
    ensures u.status == (if u.isOrganizer then "gestor" else "ativo_vinculado")
  {
    var org := IsOrganizer(f.perfil);
    ProfileUpdate(f.instituicao, f.campus, f.perfil, f.matricula, org, if org then "gestor" else "ativo_vinculado")
  }

  /** The matrícula field is on screen unless the profile is the external
      community's. */
  function MatriculaShown(perfil: string): (shown: bool)
    ensures !shown ==> perfil == "comunidade_externa"
    ensures IsOrganizer(perfil) ==> shown
  {
    perfil != "comunidade_externa"
  }

  /** A matrícula typed before switching to the external community is no
      longer on screen but is still sent. */
  lemma HiddenMatriculaIsSent(f: Form)
    requires f.perfil == "comunidade_externa"
    ensures !MatriculaShown(f.perfil)
    ensures Payload(f).matricula == f.matricula && Payload(f).status == "ativo_vinculado"
  {
  }

  /** The notification announcing a saved link. */
  const Saved: Notifications.NotificationData :=
    Notifications.NotificationData("Vínculo Atualizado", "Seus dados institucionais foram salvos com sucesso.", "vinculo", None)

  /** `handleSubmit`: sends the update (whose failure is `updateFails`); on
      success adds the notification and goes back to the profile. Returns
      the update sent, the alert and the page navigated to. */
  method HandleSubmit(center: Notifications.NotificationCenter, f: Form, updateFails: bool, now: nat)
    returns (sent: ProfileUpdate, alert: string, navigateTo: Option<string>)
    modifies center
    ensures sent == Payload(f)
    ensures updateFails ==>
      (center.notifications == old(center.notifications) && alert == "Erro ao atualizar vínculo."
       && navigateTo.None?)
    ensures !updateFails ==>
      (center.notifications == [Notifications.NewNotification(Saved, now)] + old(center.notifications)
       && alert == "Vínculo atualizado com sucesso!" && navigateTo == Some("/perfil"))
  {
    sent := Payload(f);
    if updateFails {
      return sent, "Erro ao atualizar vínculo.", None;
    }
    center.Add(Saved, now);
    return sent, "Vínculo atualizado com sucesso!", Some("/perfil");
  }
}
