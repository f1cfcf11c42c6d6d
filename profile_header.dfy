/** The profile header: the avatar or the user's initials, the status badge
    and the "Validar Vínculo" link. */
module ProfileHeader {
  import opened Js
  import opened Text
  import Seqs

  /** What `names[i][0]` becomes inside a template literal when the part is
      empty. */
  const Undefined: string := "undefined"

  /** `s[0]` interpolated into a string. */
  function FirstCharText(s: string): (t: string)
    ensures s != "" ==> t == [s[0]]
    ensures s == "" ==> t == Undefined
  {
    if s == "" then Undefined else [s[0]]
  }

  /** Every character of every part of a split comes from the string. */
  lemma {:induction false} SplitPartsFromString(s: string, sep: char)
    ensures forall k, i :: 0 <= k < |Split(s, sep)| && 0 <= i < |Split(s, sep)[k]| ==> Split(s, sep)[k][i] in s
    decreases |s|
  {
    if s != [] {
      SplitPartsFromString(s[1..], sep);
      var rest := Split(s[1..], sep);
      var parts := Split(s, sep);
      if s[0] == sep {
        assert parts[1..] == rest;
      } else {
        assert parts[1..] == rest[1..];
        assert parts[0] == [s[0]] + rest[0];
      }
    }
  }

  /** `getInitials` as written: for several space-separated parts, the first
      character of the first and of the last part, which is `undefined` for
      an empty part; otherwise the first two characters; upper-cased. */
  function InitialsAsWritten(name: string): (r: string)
    ensures var parts := Split(name, ' ');
      && (|parts| > 1 && parts[0] != "" && parts[|parts| - 1] != "" ==>
            r == [UpperChar(parts[0][0]), UpperChar(parts[|parts| - 1][0])])
      && (|parts| == 1 ==> r == Upper(Take(name, 2)))
  {
    var names := Split(name, ' ');
    if |names| > 1 then Upper(FirstCharText(names[0]) + FirstCharText(names[|names| - 1]))
    else Upper(Take(name, 2))
  }

  /** A name ending in a space shows `UNDEFINED` as its last initial. */
  lemma TrailingEmptyPartShowsUndefined(name: string)
    requires |Split(name, ' ')| > 1 && Split(name, ' ')[|Split(name, ' ')| - 1] == ""
    ensures var r := InitialsAsWritten(name);
      |r| >= 9 && r[|r| - 9..] == "UNDEFINED"
  {
    var first := FirstCharText(Split(name, ' ')[0]);
    UpperAppend(first, Undefined);
    UpperUndefined();
    var r := Upper(first) + "UNDEFINED";
    assert r[|r| - 9..] == "UNDEFINED";
  }

  lemma UpperUndefined()
    ensures Upper(Undefined) == "UNDEFINED"
  {
    var r := Upper(Undefined);
    assert r[0] == 'U' && r[1] == 'N' && r[2] == 'D' && r[3] == 'E' && r[4] == 'F';
    assert r[5] == 'I' && r[6] == 'N' && r[7] == 'E' && r[8] == 'D';
  }

  /** A word followed by one space splits into the word and an empty part. */
  lemma {:induction false} SplitWordSpace(w: string)
    requires ' ' !in w
    ensures Split(w + " ", ' ') == [w, ""]
    decreases |w|
  {
    if w == [] {
      assert w + " " == " " && " "[1..] == [];
    } else {
      SplitWordSpace(w[1..]);
      assert (w + " ")[1..] == w[1..] + " ";
      assert [w[0]] + w[1..] == w;
    }
  }

  /** A single word followed by a space shows its upper-cased first letter
      and `UNDEFINED`. */
  lemma WordThenSpace(w: string)
    requires w != "" && ' ' !in w
    ensures InitialsAsWritten(w + " ") == [UpperChar(w[0])] + "UNDEFINED"
  {
    SplitWordSpace(w);
    var parts := Split(w + " ", ' ');
    assert FirstCharText(parts[0]) == [w[0]] && FirstCharText(parts[1]) == Undefined;
    UpperAppend([w[0]], Undefined);
    UpperUndefined();
    assert Upper([w[0]]) == [UpperChar(w[0])];
  }

  /** A concrete case: "Ana " shows `AUNDEFINED`. */
  lemma TrailingSpaceShowsUndefined(name: string)
    requires name == "Ana "
    ensures InitialsAsWritten(name) == "AUNDEFINED"
  {
    WordThenSpace("Ana");
    AnaLiterals(name);
  }

  lemma AnaLiterals(name: string)
    requires name == "Ana "
    ensures "Ana" + " " == name && [UpperChar("Ana"[0])] + "UNDEFINED" == "AUNDEFINED"
  {
    assert UpperChar('A') == 'A';
  }

  predicate IsWord(part: string) {
    part != ""
  }

  /** The non-empty space-separated words of a name. */
  function Words(name: string): (ws: seq<string>)
    ensures forall w :: w in ws ==> w != "" && ' ' !in w
    ensures forall k, i :: 0 <= k < |ws| && 0 <= i < |ws[k]| ==> ws[k][i] in name
  {
    SplitPartsFromString(name, ' ');
    var ws := Seqs.Filter(Split(name, ' '), IsWord);
    assert forall k :: 0 <= k < |ws| ==> ws[k] in Split(name, ' ');
    ws
  }

  /** The initials taken from the name's words: the first letters of the
      first and last words, or the first two letters of a single word;
      every letter shown comes from the name. */
  function Initials(name: string): (r: string)
    ensures |r| <= 2
    ensures forall i :: 0 <= i < |r| ==> exists c :: c in name && r[i] == UpperChar(c)
    ensures |Words(name)| >= 1 ==> r != ""
  {
    var ws := Words(name);
    if |ws| > 1 then
      assert ws[0][0] in name && ws[|ws| - 1][0] in name;
      [UpperChar(ws[0][0]), UpperChar(ws[|ws| - 1][0])]
    else if |ws| == 1 then
      var t := Take(ws[0], 2);
      assert forall i :: 0 <= i < |t| ==> t[i] == ws[0][i] && t[i] in name;
      Upper(t)
    else ""
  }

  /** When no space-separated part is empty, the initials are those the page
      computes. */
  lemma InitialsAgreeWithoutEmptyParts(name: string)
    requires forall k :: 0 <= k < |Split(name, ' ')| ==> Split(name, ' ')[k] != ""
    ensures Initials(name) == InitialsAsWritten(name)
  {
    var parts := Split(name, ' ');
    Seqs.FilterAll(parts, IsWord);
    assert Words(name) == parts;
    if |parts| == 1 {
      JoinSplit(name, ' ');
      assert name == parts[0];
    } else {
      var a, b := parts[0], parts[|parts| - 1];
      assert FirstCharText(a) + FirstCharText(b) == [a[0], b[0]];
    }
  }

  /** The badge label of a status, `Visitante` for any status without one. */
  function StatusLabel(status: string): (text: string)
    ensures text != "Visitante" <==> status in {"ativo_comunidade", "ativo_vinculado", "gestor", "admin"}
  {
    if status == "ativo_comunidade" then "Comunidade"
    else if status == "ativo_vinculado" then "Vinculado"
    else if status == "gestor" then "Gestor"
    else if status == "admin" then "Admin"
    else "Visitante"
  }

  datatype User = User(nome: string, email: string, status: string, avatarUrl: Option<string>)

  /** What the header shows: the initials only without an avatar. */
  datatype Header = Header(initials: Option<string>, nome: string, badge: string, showValidateLink: bool)

  /** The header of a user; none without a user. */
  function HeaderOf(user: Option<User>): (h: Option<Header>)
    ensures h.Some? <==> user.Some?
    ensures h.Some? ==> (h.value.showValidateLink <==> user.value.status == "ativo_comunidade")
    ensures h.Some? ==> (h.value.initials.None? <==> user.value.avatarUrl.Some? && user.value.avatarUrl.value != "")
    ensures h.Some? ==> h.value.badge == StatusLabel(user.value.status) && h.value.nome == user.value.nome
  {
    match user
    case None => None
    case Some(u) =>
      var hasAvatar := u.avatarUrl.Some? && u.avatarUrl.value != "";
      Some(Header(if hasAvatar then None else Some(InitialsAsWritten(u.nome)), u.nome,
                  StatusLabel(u.status), u.status == "ativo_comunidade"))
  }

  /** Without an avatar, a name whose space-separated parts are all
      non-empty shows the initials of its first and last words. */
  lemma HeaderInitialsOfWords(u: User)
    requires !(u.avatarUrl.Some? && u.avatarUrl.value != "")
    requires forall k :: 0 <= k < |Split(u.nome, ' ')| ==> Split(u.nome, ' ')[k] != ""
    ensures HeaderOf(Some(u)).value.initials == Some(Initials(u.nome))
  {
    InitialsAgreeWithoutEmptyParts(u.nome);
  }

  /** Without an avatar, a name of several parts ending in a space shows
      `UNDEFINED` as its last initial. */
  lemma HeaderShowsUndefined(u: User)
    requires !(u.avatarUrl.Some? && u.avatarUrl.value != "")
    requires |Split(u.nome, ' ')| > 1 && Split(u.nome, ' ')[|Split(u.nome, ' ')| - 1] == ""
    ensures var r := HeaderOf(Some(u)).value.initials.value;
      |r| >= 9 && r[|r| - 9..] == "UNDEFINED"
  {
    TrailingEmptyPartShowsUndefined(u.nome);
  }

  /** The link to request an institutional link is offered to community
      members only, whose badge reads `Comunidade`. */
  lemma ValidateLinkOnlyForCommunity(u: User)
    ensures HeaderOf(Some(u)).value.showValidateLink ==> HeaderOf(Some(u)).value.badge == "Comunidade"
  {
  }
}
