/** The desktop sidebar: its navigation items, of which the protected ones
    are shown only to a signed-in user, and the avatar fallback. */
module Sidebar {
  import opened Js
  import opened Text

  datatype SidebarItem = SidebarItem(path: string, caption: string, protected: bool)

  const Items: seq<SidebarItem> := [
    SidebarItem("/", "Início", false),
    SidebarItem("/explorar", "Explorar", false),
    SidebarItem("/certificados", "Certificados", true),
    SidebarItem("/notificacoes", "Notificações", true),
    SidebarItem("/perfil", "Meu Perfil", true)
  ]

  /** `!item.protected || user`. */
  predicate Shown(signedIn: bool, item: SidebarItem) {
    !item.protected || signedIn
  }

  /** The items of `items` shown, in order. */
  function ShownOf(items: seq<SidebarItem>, signedIn: bool): (r: seq<SidebarItem>)
    ensures forall it :: it in r <==> it in items && Shown(signedIn, it)
  {
    if items == [] then []
    else (if Shown(signedIn, items[0]) then [items[0]] else []) + ShownOf(items[1..], signedIn)
  }

  /** The sidebar's items shown, in the list's order. */
  function VisibleItems(signedIn: bool): (r: seq<SidebarItem>)
    ensures forall it :: it in r <==> it in Items && (!it.protected || signedIn)
  {
    ShownOf(Items, signedIn)
  }

  /** A signed-in user is shown every item. */
  lemma {:induction false} ShownOfSignedIn(items: seq<SidebarItem>)
    ensures ShownOf(items, true) == items
  {
    if items != [] {
      ShownOfSignedIn(items[1..]);
      assert [items[0]] + items[1..] == items;
    }
  }

  /** When the public items come first, a visitor is shown exactly those. */
  lemma {:induction false} ShownOfVisitor(items: seq<SidebarItem>, k: nat)
    requires k <= |items|
    requires forall i :: 0 <= i < k ==> !items[i].protected
    requires forall i :: k <= i < |items| ==> items[i].protected
    ensures ShownOf(items, false) == items[..k]
  {
    if items != [] {
      var rest := items[1..];
      var j := if k == 0 then 0 else k - 1;
      forall i | 0 <= i < |rest|
        ensures i < j ==> !rest[i].protected
        ensures j <= i ==> rest[i].protected
      {
        assert rest[i] == items[i + 1];
      }
      ShownOfVisitor(rest, j);
      if k > 0 {
        assert items[..k] == [items[0]] + rest[..j];
      }
    }
  }

  /** A signed-in user sees all five items. */
  lemma SignedInSeesAll()
    ensures VisibleItems(true) == Items
  {
    ShownOfSignedIn(Items);
  }

  /** Anyone else sees only the two public ones, home first. */
  lemma VisitorSeesPublicOnly()
    ensures VisibleItems(false) == Items[..2]
  {
    ShownOfVisitor(Items, 2);
  }

  /** The avatar text when the user has no picture: the first two
      characters of the name, upper-cased. */
  function AvatarFallback(nome: string): (r: string)
    ensures |r| == if |nome| < 2 then |nome| else 2
    ensures forall i :: 0 <= i < |r| ==> r[i] == UpperChar(nome[i])
  {
    Upper(Take(nome, 2))
  }

  datatype Avatar = Picture(url: string) | Initials(text: string)

  function AvatarOf(nome: string, avatarUrl: Option<string>): (a: Avatar)
    ensures a.Picture? <==> avatarUrl.Some? && avatarUrl.value != ""
    ensures a.Initials? ==> a.text == AvatarFallback(nome)
  {
    if avatarUrl.Some? && avatarUrl.value != "" then Picture(avatarUrl.value) else Initials(AvatarFallback(nome))
  }
}
