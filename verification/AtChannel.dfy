/** The pending command of the AT channel: the state that s_commandmutex protects,
    as a value (what each critical section does) and as the program's own linked
    structures (how it does it). */
module AtChannel {
  import opened CText
  import opened AtResults

  datatype Kind = NoResult | Numeric | SingleLine | MultiLine

  /** An ATResponse. The list holds the newest line first until it is handed out. */
  datatype Response = Response(id: nat, success: bool, final: Option<Text>, lines: seq<Text>)

  datatype Channel = Channel(
    kind: Kind,                  // s_type
    prefix: Option<Text>,        // s_responsePrefix
    pdu: Option<Text>,           // s_smsPDU
    response: Option<Response>,  // sp_response
    closed: bool,                // s_readerClosed
    unsolicited: seq<Text>,      // lines passed to s_unsolHandler, in order
    sent: seq<Text>)             // PDUs written with writeCtrlZ, in order

  function Reverse(s: seq<Text>): (r: seq<Text>)
    ensures |r| == |s|
  {
    if s == [] then [] else Reverse(s[1..]) + [s[0]]
  }

  predicate StartsWithDigit(line: Text) {
    line != [] && '0' <= line[0] <= '9'
  }

  // ----- processLine -----

  datatype Fate = Unsolicited | FinalLine(success: bool) | PromptLine | Intermediate

  /** The branch processLine takes. */
  function FateOf(c: Channel, line: Text): Fate {
    if c.response.None? then Unsolicited
    else if FinalSuccess(line) then FinalLine(true)
    else if FinalError(line) then FinalLine(false)
    else if c.pdu.Some? && line == "> " then PromptLine
    else match c.kind
      case NoResult => Unsolicited
      case Numeric =>
        if c.response.value.lines == [] && StartsWithDigit(line) then Intermediate else Unsolicited
      case SingleLine =>
        if c.response.value.lines == [] && HasPrefix(c, line) then Intermediate else Unsolicited
      case MultiLine =>
        if HasPrefix(c, line) then Intermediate else Unsolicited
  }

  predicate HasPrefix(c: Channel, line: Text) {
    c.prefix.Some? && c.prefix.value <= line
  }

  function Processed(c: Channel, line: Text): Channel {
    match FateOf(c, line)
    case Unsolicited => c.(unsolicited := c.unsolicited + [line])
    case FinalLine(ok) => c.(response := Some(c.response.value.(success := ok, final := Some(line))))
    case PromptLine => c.(pdu := None, sent := c.sent + [c.pdu.value])
    case Intermediate =>
      c.(response := Some(c.response.value.(lines := [line] + c.response.value.lines)))
  }

  /** A command that has been written out. */
  function Installed(c: Channel, kind: Kind, prefix: Option<Text>, pdu: Option<Text>, id: nat): Channel {
    c.(kind := kind, prefix := prefix, pdu := pdu, response := Some(Response(id, false, None, [])))
  }

  function Cleared(c: Channel): Channel {
    c.(response := None, prefix := None, pdu := None)
  }

  // ----- The program's own structures -----

  class ATLine {
    const line: Text
    var next: ATLine?
    ghost var freed: bool

    constructor (line: Text, next: ATLine?)
      ensures this.line == line && this.next == next && !freed
    {
      this.line, this.next, freed := line, next, false;
    }

    /** free: not twice. */
    method Free()
      requires !freed
      modifies this`freed
      ensures freed
    {
      freed := true;
    }
  }

  class ATResponse {
    var success: bool
    var final: Option<Text>
    var intermediates: ATLine?
    ghost const id: nat
    ghost var nodes: seq<ATLine>  // the list, head first
    ghost var freed: bool

    constructor (ghost id: nat)
      ensures Valid() && View() == Response(id, false, None, []) && this.id == id && nodes == []
    {
      success, final, intermediates := false, None, null;
      this.id, nodes, freed := id, [], false;
    }

    method Free()
      requires !freed
      modifies this`freed
      ensures freed
    {
      freed := true;
    }

    ghost predicate Valid()
      reads this, nodes
    {
      && !freed
      && Linked(intermediates, nodes)
      && (forall i :: 0 <= i < |nodes| ==> !nodes[i].freed)
    }

    ghost function View(): Response
      reads this
    {
      Response(id, success, final, LineTexts(nodes))
    }

    /** addIntermediate: push at the head. */
    method AddIntermediate(line: Text)
      requires Valid()
      modifies this
      ensures Valid() && fresh(set n | n in nodes && n !in old(nodes))
      ensures View() == old(View()).(lines := [line] + old(View()).lines)
    {
      var p := new ATLine(line, intermediates);
      intermediates := p;
      nodes := [p] + nodes;
      assert forall i :: 1 <= i < |nodes| ==> nodes[i] == old(nodes)[i - 1];
      assert LineTexts(nodes) == [line] + LineTexts(old(nodes));
    }

    /** reverseIntermediates: the pointer loop turns the list round in place. */
    method ReverseIntermediates()
      requires Valid()
      modifies this, nodes
      ensures Valid() && nodes == Backwards(old(nodes))
      ensures View() == old(View()).(lines := Reverse(old(View()).lines))
    {
      hide LineTexts, Reverse, Backwards, Linked, NodeAt;
      ghost var all := nodes;
      DistinctNodes(intermediates, all);
      TurnRound(all);
      nodes := Backwards(all);
      LinkedBackwards(intermediates, all, nodes);
      ReverseTexts(all, nodes);
    }

    method TurnRound(ghost all: seq<ATLine>)
      requires nodes == all && Linked(intermediates, all)
      modifies this`intermediates, all`next
      ensures intermediates == NodeAt(all, |all| - 1)
      ensures forall i :: 0 <= i < |all| ==> all[i].next == NodeAt(all, i - 1)
    {
      ghost var k := 0;
      var cur := intermediates;
      intermediates := null;
      while cur != null
        invariant k <= |all| && cur == NodeAt(all, k) && intermediates == NodeAt(all, k - 1)
        invariant forall i :: k <= i < |all| ==> all[i].next == NodeAt(all, i + 1)
        invariant forall i :: 0 <= i < k ==> all[i].next == NodeAt(all, i - 1)
        decreases |all| - k
      {
        var next := cur.next;
        cur.next := intermediates;
        intermediates := cur;
        cur := next;
        k := k + 1;
      }
    }
  }

  ghost function Backwards(nodes: seq<ATLine>): (r: seq<ATLine>)
    ensures |r| == |nodes| && forall i :: 0 <= i < |r| ==> r[i] == nodes[|nodes| - 1 - i]
  {
    seq(|nodes|, i requires 0 <= i < |nodes| => nodes[|nodes| - 1 - i])
  }

  /** at_response_free: walks the list. Freeing anything twice is ruled out by the
      precondition, which only a live response meets. */
  method AtResponseFree(r: ATResponse?)
    requires r != null ==> r.Valid()
    modifies r, if r != null then r.nodes else []
    ensures r != null ==> r.freed && r.nodes == old(r.nodes) && forall n :: n in r.nodes ==> n.freed
  {
    if r == null {
      return;
    }
    ghost var k := 0;
    var p := r.intermediates;
    while p != null
      invariant k <= |r.nodes| && p == NodeAt(r.nodes, k) && unchanged(r)
      invariant forall i :: k <= i < |r.nodes| ==> !r.nodes[i].freed && r.nodes[i].next == NodeAt(r.nodes, i + 1)
      invariant forall i :: 0 <= i < k ==> r.nodes[i].freed
      decreases |r.nodes| - k
    {
      var toFree := p;
      p := p.next;
      toFree.Free();
      k := k + 1;
    }
    r.Free();
  }

  ghost function NodeAt(nodes: seq<ATLine>, i: int): ATLine? {
    if 0 <= i < |nodes| then nodes[i] else null
  }

  /** The list that starts at head runs through exactly these nodes. */
  ghost predicate Linked(head: ATLine?, nodes: seq<ATLine>)
    reads nodes
  {
    && head == NodeAt(nodes, 0)
    && (forall i :: 0 <= i < |nodes| ==> nodes[i].next == NodeAt(nodes, i + 1))
    && (forall i, j :: 0 <= i < j < |nodes| ==> nodes[i] != nodes[j])
  }

  lemma DistinctNodes(head: ATLine?, nodes: seq<ATLine>)
    requires Linked(head, nodes)
    ensures forall i, j :: 0 <= i < j < |nodes| ==> nodes[i] != nodes[j]
  {
  }

  lemma LinkedBackwards(head: ATLine?, all: seq<ATLine>, back: seq<ATLine>)
    requires |all| == |back| && forall i :: 0 <= i < |back| ==> back[i] == all[|all| - 1 - i]
    requires forall i, j :: 0 <= i < j < |all| ==> all[i] != all[j]
    requires head == NodeAt(all, |all| - 1)
    requires forall i :: 0 <= i < |all| ==> all[i].next == NodeAt(all, i - 1)
    ensures Linked(head, back)
  {
    forall i | 0 <= i < |back|
      ensures back[i].next == NodeAt(back, i + 1)
    {
      assert all[|all| - 1 - i].next == NodeAt(all, |all| - 2 - i);
    }
  }

  ghost function LineTexts(nodes: seq<ATLine>): seq<Text> {
    seq(|nodes|, i requires 0 <= i < |nodes| => nodes[i].line)
  }

  lemma {:induction false} ReverseAt(s: seq<Text>, k: nat)
    requires k < |s|
    ensures Reverse(s)[k] == s[|s| - 1 - k]
  {
    if k < |s| - 1 {
      ReverseAt(s[1..], k);
    }
  }

  lemma ReverseTexts(all: seq<ATLine>, back: seq<ATLine>)
    requires |all| == |back| && forall i :: 0 <= i < |all| ==> back[i] == all[|all| - 1 - i]
    ensures LineTexts(back) == Reverse(LineTexts(all))
  {
    forall i | 0 <= i < |all|
      ensures LineTexts(back)[i] == Reverse(LineTexts(all))[i]
    {
      ReverseAt(LineTexts(all), i);
    }
  }

  class AtChannel {
    var kind: Kind
    var prefix: Option<Text>
    var pdu: Option<Text>
    var response: ATResponse?
    var closed: bool
    var unsolicited: seq<Text>
    var sent: seq<Text>

    ghost predicate Valid()
      reads this, response, if response != null then response.nodes else []
    {
      response != null ==> response.Valid()
    }

    ghost function View(): Channel
      reads this, response, if response != null then response.nodes else []
    {
      Channel(kind, prefix, pdu, if response == null then None else Some(response.View()), closed,
              unsolicited, sent)
    }

    method HandleUnsolicited(line: Text)
      modifies this`unsolicited
      ensures unsolicited == old(unsolicited) + [line]
    {
      unsolicited := unsolicited + [line];
    }

    /** processLine, under s_commandmutex. */
    method ProcessLine(line: Text)
      requires Valid()
      modifies this, response
      ensures Valid() && response == old(response)
      ensures View() == Processed(old(View()), line)
    {
      if response == null {
        HandleUnsolicited(line);
        return;
      }
      var ok := Listed(line, FINAL_RESPONSES_SUCCESS);
      var bad := Listed(line, FINAL_RESPONSES_ERROR);
      if ok {
        response.success := true;
        response.final := Some(line);
      } else if bad {
        response.success := false;
        response.final := Some(line);
      } else if pdu.Some? && line == "> " {
        sent := sent + [pdu.value];  // writeCtrlZ
        pdu := None;
      } else {
        RouteByKind(line);
      }
    }

    /** The switch at the end of processLine. */
    method RouteByKind(line: Text)
      requires Valid() && response != null && !Final(line) && !(pdu.Some? && line == "> ")
      modifies this, response
      ensures Valid() && response == old(response)
      ensures View() == Processed(old(View()), line)
    {
      hide FinalSuccess, FinalError;
      var hit := false;
      if prefix.Some? {
        hit := StrStartsWith(line, prefix.value);
      }
      var first := response.intermediates == null;
      var mine :=
        match kind
        case NoResult => false
        case Numeric => first && StartsWithDigit(line)
        case SingleLine => first && hit
        case MultiLine => hit;
      if mine {
        response.AddIntermediate(line);
      } else {
        HandleUnsolicited(line);
      }
    }

    /** What at_send_command_full_nolock stores once the command is written. */
    method Install(kind: Kind, prefix: Option<Text>, pdu: Option<Text>, ghost id: nat)
      requires Valid() && response == null
      modifies this
      ensures Valid() && fresh(response)
      ensures View() == Installed(old(View()), kind, prefix, pdu, id)
    {
      this.kind, this.prefix, this.pdu := kind, prefix, pdu;
      response := new ATResponse(id);
    }

    /** The issuer takes the response: its lines are put back in arrival order. */
    method HandOut() returns (r: ATResponse)
      requires Valid() && response != null
      modifies this, response, response.nodes
      ensures Valid() && r == old(response) && r.Valid()
      ensures View() == old(View()).(response := None)
      ensures r.View() == old(r.View()).(lines := Reverse(old(r.View()).lines))
    {
      r := response;
      r.ReverseIntermediates();
      response := null;
    }

    method ClearPendingCommand()
      requires Valid()
      modifies this, response, if response != null then response.nodes else []
      ensures Valid() && View() == Cleared(old(View()))
      ensures old(response) != null ==> old(response).freed && forall n :: n in old(response).nodes ==> n.freed
    {
      if response != null {
        AtResponseFree(response);
      }
      response, prefix, pdu := null, None, None;
    }
  }
}
