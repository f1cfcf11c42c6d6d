/** The profile page's event menu, which depends on the user's profile, and
    its logout confirmation. */
module ProfilePage {
  import opened Js

  datatype MenuItem = MenuItem(to: string, caption: string)

  const OrganizerMenu: seq<MenuItem> := [
    MenuItem("/evento/criar", "Criar evento"),
    MenuItem("/perfil/meus-eventos", "Meus eventos"),
    MenuItem("/perfil/inscritos", "Lista de inscritos"),
    MenuItem("/perfil/marcar-presenca", "Marcar presença")
  ]

  const ManagerMenu: seq<MenuItem> := [
    MenuItem("/gestor/painel", "Painel do gestor"),
    MenuItem("/gestor/eventos", "Eventos da instituição"),
    MenuItem("/gestor/relatorios", "Relatórios"),
    MenuItem("/gestor/vinculos", "Aprovar vínculos")
  ]

  const ParticipantMenu: seq<MenuItem> := [
    MenuItem("/perfil/eventos-inscritos", "Eventos inscritos"),
    MenuItem("/perfil/presencas", "Minhas presenças")
  ]

  /** `renderEventMenu`: `perfil` is the signed-in user's profile, if any. */
  function EventMenu(perfil: Option<string>): (m: Option<seq<MenuItem>>)
    ensures m.None? <==> perfil.None?
    ensures perfil == Some("servidor") ==> m == Some(OrganizerMenu)
    ensures perfil == Some("gestor") ==> m == Some(ManagerMenu)
    ensures perfil.Some? && perfil.value != "servidor" && perfil.value != "gestor" ==> m == Some(ParticipantMenu)
  {
    match perfil
    case None => None
    case Some(p) =>
      if p == "servidor" then Some(OrganizerMenu)
      else if p == "gestor" then Some(ManagerMenu)
      else Some(ParticipantMenu)
  }

  /** A route under `/gestor/`. */
  predicate ManagerRoute(to: string) {
    |to| >= 8 && to[..8] == "/gestor/"
  }

  /** Every item of the manager's menu, and no item of any other menu,
      leads to the `/gestor/` pages; an administrator gets the participant's
      menu. */
  lemma ManagerRoutesOnlyForManagers(perfil: string)
    ensures forall i :: 0 <= i < |EventMenu(Some(perfil)).value| ==>
      (ManagerRoute(EventMenu(Some(perfil)).value[i].to) <==> perfil == "gestor")
    ensures EventMenu(Some("admin")) == Some(ParticipantMenu)
  {
    var m := EventMenu(Some(perfil)).value;
    forall i | 0 <= i < |m| ensures ManagerRoute(m[i].to) <==> perfil == "gestor" {
      if perfil == "gestor" {
        assert m[i].to[..8] == "/gestor/";
      } else {
        assert m[i].to[1] == 'e' || m[i].to[1] == 'p';
      }
    }
  }

  /** `handleLogout`: signs out and goes home only after confirmation;
      returns whether it signed out and where it navigated. */
  function Logout(confirmed: bool): (r: (bool, Option<string>))
    ensures r.0 <==> confirmed
    ensures r.1.Some? <==> confirmed
    ensures r.1.Some? ==> r.1.value == "/"
  {
    if confirmed then (true, Some("/")) else (false, None)
  }
}
