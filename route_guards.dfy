/** The two route guards: the general one, which waits for the session,
    sends a visitor to the login page and a user of another profile to the
    restricted page; and the management one, a fixed list of profiles. */
module RouteGuards {
  import opened Js

  datatype Perfil = Aluno | Servidor | Gestor | Admin | ComunidadeExterna

  /** What a guarded route renders. */
  datatype Decision = Spinner | Redirect(to: string) | Outlet

  /** `ProtectedRoute`: `user` is the signed-in user's profile, if any. */
  function Protected(loading: bool, user: Option<Perfil>, allowedProfiles: seq<Perfil>): (d: Decision)
    ensures loading <==> d.Spinner?
    ensures !loading && user.None? <==> d == Redirect("/login")
    ensures d.Outlet? <==> !loading && user.Some? && user.value in allowedProfiles
    ensures d == Redirect("/acesso-restrito") <==> !loading && user.Some? && user.value !in allowedProfiles
  {
    if loading then Spinner
    else if user.None? then Redirect("/login")
    else if user.value !in allowedProfiles then Redirect("/acesso-restrito")
    else Outlet
  }

  const ManagementProfiles: seq<Perfil> := [Gestor, Servidor, Aluno, Admin]

  /** The management list holds every profile but the external
      community's. */
  lemma ManagementProfilesAllButCommunity()
    ensures forall p: Perfil :: p in ManagementProfiles <==> p != ComunidadeExterna
  {
    forall p: Perfil ensures p in ManagementProfiles <==> p != ComunidadeExterna {
      match p
      case Gestor => assert ManagementProfiles[0] == p;
      case Servidor => assert ManagementProfiles[1] == p;
      case Aluno => assert ManagementProfiles[2] == p;
      case Admin => assert ManagementProfiles[3] == p;
      case ComunidadeExterna =>
    }
  }

  /** `GestorProtectedRoute`: no waiting for the session; a visitor or a
      profile outside the list goes to the management restricted page. */
  function Management(user: Option<Perfil>): (d: Decision)
    ensures d.Outlet? || d == Redirect("/gestor/acesso-restrito")
    ensures d.Outlet? <==> user.Some? && user.value != ComunidadeExterna
  {
    ManagementProfilesAllButCommunity();
    if user.None? || user.value !in ManagementProfiles then Redirect("/gestor/acesso-restrito") else Outlet
  }

  /** Once the session is known, the management guard lets through exactly
      whom the general guard lets through with the management list. */
  lemma ManagementIsProtectedWithList(user: Option<Perfil>)
    ensures Management(user).Outlet? <==> Protected(false, user, ManagementProfiles).Outlet?
  {
  }
}
