/** The registration that the bundled agents print, with a socket in it, as the orchestrator reads it
    (agents/desktop-agent/main.c and its copies, components/orchestrator/main.c). */
module AgentMessages {
  import opened CStrings
  import opened Pieces
  import opened Json
  import opened Fields
  import opened Registration
  import Register
  import Registry

  function Announced(name: string, version: string, socket: string, caps: seq<string>): string {
    "{" + Member("type", "register") + "," + Member("name", name) + "," + Member("version", version)
    + "," + Member("socket", socket) + "," + Name("capabilities") + (":[" + Register.CapsText(caps) + "]}")
  }

  /** The pieces before the list. */
  function HeadPieces(name: string, version: string, socket: string): seq<string> {
    ["{", "type", ":", "register", ",", "name", ":", name, ",", "version", ":", version, ",", "socket", ":", socket,
     ",", "capabilities"]
  }

  lemma NamesArePieces(name: string, version: string)
    ensures "{" + Member("type", "register") + "," + Member("name", name) + "," + Member("version", version)
         == Quoted(["{", "type", ":", "register", ",", "name", ":", name, ",", "version", ":", version])
  {
    var p1 := ["{", "type", ":", "register"];
    var p2 := p1 + [",", "name", ":", name];
    PushMember([], "{", "type", "register");
    assert [] + p1 == p1;
    assert Quoted([]) + "{" + Member("type", "register") == "{" + Member("type", "register");
    PushMember(p1, ",", "name", name);
    PushMember(p2, ",", "version", version);
    assert p2 + [",", "version", ":", version]
        == ["{", "type", ":", "register", ",", "name", ":", name, ",", "version", ":", version];
  }

  lemma AnnouncedHead(name: string, version: string, socket: string, caps: seq<string>)
    ensures Announced(name, version, socket, caps)
         == Quoted(HeadPieces(name, version, socket)) + (":[" + Register.CapsText(caps) + "]}")
  {
    var p3 := ["{", "type", ":", "register", ",", "name", ":", name, ",", "version", ":", version];
    NamesArePieces(name, version);
    PushMember(p3, ",", "socket", socket);
    PushName(p3 + [",", "socket", ":", socket], ",", "capabilities");
    assert p3 + [",", "socket", ":", socket] + [",", "capabilities"] == HeadPieces(name, version, socket);
  }

  lemma AnnouncedPieces(name: string, version: string, socket: string, caps: seq<string>)
    ensures Announced(name, version, socket, caps)
         == Quoted(HeadPieces(name, version, socket) + CapsPieces(caps)) + LastPiece(caps)
  {
    var head := HeadPieces(name, version, socket);
    AnnouncedHead(name, version, socket, caps);
    if caps == [] {
      assert head + CapsPieces(caps) == head;
      assert ":[" + Register.CapsText(caps) + "]}" == ":[]}";
    } else {
      CapsArePieces(head, caps);
      Assoc(Quoted(head), ":[" + Register.CapsText(caps), "]}");
    }
  }

  lemma ListPieceAt(head: seq<string>, caps: seq<string>, j: nat)
    requires |head| <= j < |head + CapsPieces(caps)|
    ensures var k := (j - |head|) / 2;
            k < |caps| && (head + CapsPieces(caps))[j]
                          == if (j - |head|) % 2 == 1 then caps[k] else if k == 0 then ":[" else ","
  {
    CapsPieceAt(caps);
    var k := (j - |head|) / 2;
    assert (head + CapsPieces(caps))[j] == CapsPieces(caps)[j - |head|];
    assert j - |head| == 2 * k || j - |head| == 2 * k + 1;
  }

  /** The texts an agent announces that could be mistaken for a key. */
  predicate Announces(name: string, version: string, socket: string, caps: seq<string>, key: string) {
    name == key || version == key || socket == key || key in caps
  }

  lemma QueryPiece(name: string, version: string, socket: string, caps: seq<string>)
    ensures var ps := HeadPieces(name, version, socket) + CapsPieces(caps);
            (exists j :: 1 <= j < |ps| && ps[j] == "query") <==> Announces(name, version, socket, caps, "query")
  {
    var head := HeadPieces(name, version, socket);
    var ps := head + CapsPieces(caps);
    if j :| 1 <= j < |ps| && ps[j] == "query" {
      if j >= 18 {
        ListPieceAt(head, caps, j);
      }
    } else {
      assert ps[7] == name && ps[11] == version && ps[15] == socket;
      CapsPieceAt(caps);
      forall k | 0 <= k < |caps|
        ensures caps[k] != "query"
      {
        assert ps[18 + 2 * k + 1] == CapsPieces(caps)[2 * k + 1];
      }
    }
  }

  lemma NoTypeAt(name: string, version: string, socket: string, caps: seq<string>, other: string, j: nat)
    requires other != "register" && 1 <= j <= |HeadPieces(name, version, socket) + CapsPieces(caps)|
    ensures !(["type", ":", other] <= (HeadPieces(name, version, socket) + CapsPieces(caps))[j..])
  {
    var head := HeadPieces(name, version, socket);
    var ps := head + CapsPieces(caps);
    if j + 2 < |ps| {
      assert ps[j..][0] == ps[j] && ps[j..][1] == ps[j + 1] && ps[j..][2] == ps[j + 2];
      if j >= 18 {
        ListPieceAt(head, caps, j);
        ListPieceAt(head, caps, j + 1);
      }
    }
  }

  ghost predicate Announceable(name: string, version: string, socket: string, caps: seq<string>) {
    && QuoteFree(name) && |name| < MAX_NAME_LEN && QuoteFree(version) && |version| < Register.VERSION_LEN
    && QuoteFree(socket) && |socket| < MAX_SOCKET_LEN && Listable(caps) && |caps| <= Register.MAX_CAPABILITIES
  }

  lemma PiecesFree(name: string, version: string, socket: string, caps: seq<string>)
    requires Announceable(name, version, socket, caps)
    ensures AllQuoteFree(HeadPieces(name, version, socket)) && QuoteFree(LastPiece(caps))
    ensures AllQuoteFree(HeadPieces(name, version, socket) + CapsPieces(caps))
  {
    var head := HeadPieces(name, version, socket);
    var ps := head + CapsPieces(caps);
    forall j | 0 <= j < |ps|
      ensures QuoteFree(ps[j])
    {
      if j >= 18 {
        ListPieceAt(head, caps, j);
      }
    }
  }

  lemma NotOfType(name: string, version: string, socket: string, caps: seq<string>, other: string)
    requires Announceable(name, version, socket, caps) && QuoteFree(other) && other != "register"
    ensures StrStr(Announced(name, version, socket, caps), Member("type", other)).None?
  {
    var ps := HeadPieces(name, version, socket) + CapsPieces(caps);
    AnnouncedPieces(name, version, socket, caps);
    PiecesFree(name, version, socket, caps);
    MemberIsPieces("type", other);
    forall j | 1 <= j <= |ps|
      ensures !(["type", ":", other] <= ps[j..])
    {
      NoTypeAt(name, version, socket, caps, other, j);
    }
    NoPieces(ps, ["type", ":", other], LastPiece(caps));
  }

  /** An announcement is taken for a registration exactly when nothing in it is called "query", and for a request
      otherwise. */
  lemma AnnouncementKind(name: string, version: string, socket: string, caps: seq<string>)
    requires Announceable(name, version, socket, caps)
    ensures KindOf(Announced(name, version, socket, caps))
         == if Announces(name, version, socket, caps, "query") then Request else Registration
  {
    var ps := HeadPieces(name, version, socket) + CapsPieces(caps);
    AnnouncedPieces(name, version, socket, caps);
    PiecesFree(name, version, socket, caps);
    NotOfType(name, version, socket, caps, "ping");
    NotOfType(name, version, socket, caps, "request");
    TypeMet(ps, LastPiece(caps));
    Mentioned(ps, "query", LastPiece(caps));
    QueryPiece(name, version, socket, caps);
  }

  lemma TypeMet(ps: seq<string>, last: string)
    requires |ps| >= 4 && ps[..4] == ["{", "type", ":", "register"] && AllQuoteFree(ps)
    ensures StrStr(Quoted(ps) + last, Member("type", "register")).Some?
  {
    MemberIsPieces("type", "register");
    assert ps[1..] == ps[..4][1..] + ps[4..];
    FindPieces(ps, ["type", ":", "register"], 1, last);
  }

  // ---- what is read ----

  lemma HeadFree(name: string, version: string, socket: string)
    requires QuoteFree(name) && QuoteFree(version) && QuoteFree(socket)
    ensures AllQuoteFree(HeadPieces(name, version, socket))
  {
  }

  /** Where the keys stand among the pieces, and that nothing before them is taken for them. */
  lemma HeadKeys(name: string, version: string, socket: string)
    ensures var ps := HeadPieces(name, version, socket);
            && |ps| == 18 && ps[5] == "name" && ps[9] == "version" && ps[13] == "socket"
            && ps[6] == ps[10] == ps[14] == ":" && ps[8] == ps[12] == ","
            && ps[7] == name && ps[11] == version && ps[15] == socket
            && (forall j :: 1 <= j < 5 ==> ps[j] != "name")
            && (forall j :: 1 <= j < 9 && j != 7 ==> ps[j] != "version")
            && (forall j :: 1 <= j < 13 && j != 7 && j != 11 ==> ps[j] != "socket")
  {
  }

  lemma NamesRead(name: string, version: string, socket: string, rest: string)
    requires QuoteFree(name) && QuoteFree(version) && QuoteFree(socket)
    ensures var raw := Quoted(HeadPieces(name, version, socket)) + rest;
            Field(raw, "name", 63) == Cut(name, 63) && Field(raw, "version", 15) == Cut(version, 15)
  {
    HeadFree(name, version, socket);
    HeadKeys(name, version, socket);
    FieldPiece(HeadPieces(name, version, socket), "name", 5, 6, rest, 63);
    FieldPiece(HeadPieces(name, version, socket), "version", if name == "version" then 7 else 9, 10, rest, 15);
  }

  lemma SocketRead(name: string, version: string, socket: string, rest: string)
    requires QuoteFree(name) && QuoteFree(version) && QuoteFree(socket)
    ensures Field(Quoted(HeadPieces(name, version, socket)) + rest, "socket", 255)
         == Cut(if name == "socket" then version else socket, 255)
  {
    HeadFree(name, version, socket);
    HeadKeys(name, version, socket);
    if name == "socket" {
      FieldPiece(HeadPieces(name, version, socket), "socket", 7, 10, rest, 255);
    } else {
      FieldPiece(HeadPieces(name, version, socket), "socket", if version == "socket" then 11 else 13, 14, rest, 255);
    }
  }

  lemma SocketMentioned(name: string, version: string, socket: string, rest: string)
    requires QuoteFree(name) && QuoteFree(version) && QuoteFree(socket)
    ensures SocketKey(Quoted(HeadPieces(name, version, socket)) + rest) == "socket"
  {
    PieceOccurs(HeadPieces(name, version, socket), "socket", 13, rest);
  }

  /** The list is looked for behind the first piece called "capabilities". */
  predicate ListMet(name: string, version: string, socket: string) {
    && (name == "capabilities" ==> '[' !in version && '[' !in socket)
    && (version == "capabilities" ==> '[' !in socket)
  }

  lemma ListRead(name: string, version: string, socket: string, caps: seq<string>)
    requires Announceable(name, version, socket, caps) && ListMet(name, version, socket)
    ensures CapsOf(Announced(name, version, socket, caps)) == caps
  {
    var list := Register.CapsText(caps) + "]}";
    AnnouncedHead(name, version, socket, caps);
    assert ":[" + Register.CapsText(caps) + "]}" == ":[" + list;
    ListBehind(name, version, socket, list);
    CapListIs(caps, "]}", Register.MAX_CAPABILITIES);
  }

  lemma ListBehind(name: string, version: string, socket: string, list: string)
    requires QuoteFree(name) && QuoteFree(version) && QuoteFree(socket) && ListMet(name, version, socket)
    ensures CapsStart(Quoted(HeadPieces(name, version, socket)) + (":[" + list)) == Some(list)
  {
    var ps := HeadPieces(name, version, socket);
    HeadFree(name, version, socket);
    if name == "capabilities" {
      ListStart(ps, "capabilities", 7, list);
    } else if version == "capabilities" {
      ListStart(ps, "capabilities", 11, list);
    } else if socket == "capabilities" {
      ListStart(ps, "capabilities", 15, list);
    } else {
      ListStart(ps, "capabilities", 17, list);
    }
  }

  /** What the orchestrator reads from an announcement: the agent announced, unless its name is "socket", which puts the
      version where the socket belongs, or a bracket hides the list from a key before it. */
  lemma AnnouncementArrives(name: string, version: string, socket: string, caps: seq<string>, now: int)
    requires Announceable(name, version, socket, caps)
    ensures var a := AgentOf(Announced(name, version, socket, caps), now);
            && a.name == name && a.version == version && a.alive && a.heartbeat == now
            && a.socket == (if name == "socket" then version else socket)
            && (ListMet(name, version, socket) ==> a.capabilities == caps)
  {
    var rest := ":[" + Register.CapsText(caps) + "]}";
    AnnouncedHead(name, version, socket, caps);
    NamesRead(name, version, socket, rest);
    SocketRead(name, version, socket, rest);
    SocketMentioned(name, version, socket, rest);
    if ListMet(name, version, socket) {
      ListRead(name, version, socket, caps);
    }
  }

  /** As with an agent of that name. */
  lemma NamedSocket(now: int)
    ensures AgentOf(Announced("socket", "1", "/run/agent", []), now).socket == "1"
  {
    AnnouncementArrives("socket", "1", "/run/agent", [], now);
  }
}
