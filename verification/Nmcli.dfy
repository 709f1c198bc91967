/**
 The command builder and the profile listing of rrmngmnt/nmcli.py.
 The builder appends words to one text; `shlex.split` cuts that text into the argument list that
 is run. `shlex` is modelled for texts without quotes and backslashes, where it only cuts at blanks.
 */
module Nmcli {
  import opened Wrappers
  import opened Text

  // ---------------------------------------------------------------- options

  /** An argument as callers pass it: a text, or a number such as an MTU or a VLAN id. */
  datatype Value = Str(text: string) | Number(n: int)

  /** How an f-string renders it. */
  function Render(v: Value): string {
    match v
    case Str(text) => text
    case Number(n) => IntText(n)
  }

  /** Python truth: neither None, nor "", nor 0. */
  predicate Truthy(o: Option<Value>) {
    o.Some? && o.value != Str("") && o.value != Number(0)
  }

  datatype IpOptions = IpOptions(
    method4: Option<Value>, address4: Option<Value>, gateway4: Option<Value>,
    method6: Option<Value>, address6: Option<Value>, gateway6: Option<Value>)

  const NO_IP := IpOptions(None, None, None, None, None, None)

  datatype Request = Request(
    objectType: string, operation: string, name: Value, conType: Value, ifname: Option<Value>,
    autoConnect: Option<bool>, save: Option<bool>, typeOptions: seq<(string, Value)>, ip: IpOptions)

  const ADD := "add"
  const MODIFY := "modify"
  const DELETE := "delete"

  /** The public methods that go through the builder. */
  datatype Call =
    | AddEthernet(name: Value, ifname: Option<Value>, mac: Option<Value>, mtu: Option<Value>, common: Common)
    | AddBond(name: Value, ifname: Option<Value>, mode: Option<Value>, primary: Option<Value>, miimon: Option<Value>,
              common: Common)
    | AddSlave(name: Value, slaveType: Value, ifname: Option<Value>, master: Option<Value>, common: Common)
    | AddVlan(name: Value, dev: Value, id: Value, mtu: Option<Value>, common: Common)
    | AddDummy(name: Value, ifname: Option<Value>, common: Common)
    | ModifyConnection(name: Value, properties: seq<(string, Value)>)
    | DeleteConnection(name: Value)
    | ModifyDevice(name: Value, properties: seq<(string, Value)>)

  datatype Common = Common(autoConnect: Option<bool>, save: Option<bool>, ip: IpOptions)

  function IfTruthy(key: string, o: Option<Value>): seq<(string, Value)> {
    if Truthy(o) then [(key, o.value)] else []
  }

  function RequestOf(c: Call): Request {
    match c
    case AddEthernet(name, ifname, mac, mtu, o) =>
      Add(name, Str("ethernet"), ifname, IfTruthy("mac", mac) + IfTruthy("mtu", mtu), o)
    case AddBond(name, ifname, mode, primary, miimon, o) =>
      var options := IfTruthy("mode", mode) + IfTruthy("miimon", miimon) + IfTruthy("primary", primary);
      Add(name, Str("bond"), ifname, options, o)
    case AddSlave(name, slaveType, ifname, master, o) =>
      Add(name, slaveType, ifname, IfTruthy("master", master), o)
    case AddVlan(name, dev, id, mtu, o) =>
      Add(name, Str("vlan"), None, [("dev", dev), ("id", id)] + IfTruthy("mtu", mtu), o)
    case AddDummy(name, ifname, o) =>
      Add(name, Str("dummy"), ifname, [], o)
    case ModifyConnection(name, properties) =>
      Request("connection", MODIFY, name, Str("None"), None, None, None, properties, NO_IP)
    case DeleteConnection(name) =>
      Request("connection", DELETE, name, Str("None"), None, None, None, [], NO_IP)
    case ModifyDevice(name, properties) =>
      Request("device", MODIFY, name, Str("None"), None, None, None, properties, NO_IP)
  }

  function Add(name: Value, conType: Value, ifname: Option<Value>, typeOptions: seq<(string, Value)>,
               o: Common): Request {
    Request("connection", ADD, name, conType, ifname, o.autoConnect, o.save, typeOptions, o.ip)
  }

  // ---------------------------------------------------------------- the words a request stands for

  type Pair = (string, string)

  function Head(r: Request): (ws: seq<string>)
    ensures |ws| >= 3
  {
    ["nmcli", r.objectType, r.operation] +
    (if r.operation == DELETE || r.operation == MODIFY then [Render(r.name)] else [])
  }

  function Optional(key: string, o: Option<Value>): seq<Pair> {
    if Truthy(o) then [(key, Render(o.value))] else []
  }

  function YesNo(key: string, o: Option<bool>): seq<Pair> {
    if o.Some? then [(key, if o.value then "yes" else "no")] else []
  }

  function CommonPairs(r: Request): seq<Pair> {
    [("type", Render(r.conType)), ("con-name", Render(r.name))] + Optional("ifname", r.ifname)
    + YesNo("autoconnect", r.autoConnect) + YesNo("save", r.save)
  }

  function TypePairs(options: seq<(string, Value)>): seq<Pair> {
    if options == [] then []
    else TypePairs(options[..|options| - 1]) + [(options[|options| - 1].0, Render(options[|options| - 1].1))]
  }

  /** Methods first, then version 4, then version 6. */
  function IpPairs(ip: IpOptions): seq<Pair> {
    Optional("ipv4.method", ip.method4) + Optional("ipv6.method", ip.method6)
    + Optional("ipv4.addresses", ip.address4) + Optional("ipv4.gateway", ip.gateway4)
    + Optional("ipv6.addresses", ip.address6) + Optional("ipv6.gateway", ip.gateway6)
  }

  function Pairs(r: Request): seq<Pair> {
    (if r.operation == ADD then CommonPairs(r) else []) + TypePairs(r.typeOptions) + IpPairs(r.ip)
  }

  function Flatten(pairs: seq<Pair>): (ws: seq<string>)
    ensures |ws| == 2 * |pairs|
  {
    if pairs == [] then [] else [pairs[0].0, pairs[0].1] + Flatten(pairs[1..])
  }

  /** The argument list the request stands for. */
  function Arguments(r: Request): seq<string> {
    Head(r) + Flatten(Pairs(r))
  }

  // ---------------------------------------------------------------- the builder

  /** What one `command += f" {key} {value}"` appends. */
  function Piece(key: string, value: string): string {
    " " + key + " " + value
  }

  /** The text after appending every pair in turn. */
  function After(command: string, pairs: seq<Pair>): string
    decreases |pairs|
  {
    if pairs == [] then command else After(command + Piece(pairs[0].0, pairs[0].1), pairs[1..])
  }

  lemma {:induction false} AfterConcat(command: string, a: seq<Pair>, b: seq<Pair>)
    ensures After(command, a + b) == After(After(command, a), b)
    decreases |a|
  {
    if a == [] {
      assert a + b == b;
    } else {
      assert (a + b)[1..] == a[1..] + b;
      AfterConcat(command + Piece(a[0].0, a[0].1), a[1..], b);
    }
  }

  /** Appending to a prefix and a text is appending to the text behind the prefix. */
  lemma {:induction false} AfterPrefix(prefix: string, command: string, pairs: seq<Pair>)
    ensures After(prefix + command, pairs) == prefix + After(command, pairs)
    decreases |pairs|
  {
    if pairs != [] {
      var piece := Piece(pairs[0].0, pairs[0].1);
      assert prefix + command + piece == prefix + (command + piece);
      AfterPrefix(prefix, command + piece, pairs[1..]);
    }
  }

  method AppendOption(command: string, key: string, o: Option<Value>) returns (r: string)
    ensures r == After(command, Optional(key, o))
  {
    r := command;
    if Truthy(o) {
      r := r + Piece(key, Render(o.value));
    }
  }

  /** `_ip_options_builder` */
  method IpOptionsBuilder(ip: IpOptions) returns (command: string)
    ensures command == After("", IpPairs(ip))
  {
    command := AppendOption("", "ipv4.method", ip.method4);
    ghost var ps := Optional("ipv4.method", ip.method4);
    AfterConcat("", ps, Optional("ipv6.method", ip.method6));
    command := AppendOption(command, "ipv6.method", ip.method6);
    ps := ps + Optional("ipv6.method", ip.method6);
    AfterConcat("", ps, Optional("ipv4.addresses", ip.address4));
    command := AppendOption(command, "ipv4.addresses", ip.address4);
    ps := ps + Optional("ipv4.addresses", ip.address4);
    AfterConcat("", ps, Optional("ipv4.gateway", ip.gateway4));
    command := AppendOption(command, "ipv4.gateway", ip.gateway4);
    ps := ps + Optional("ipv4.gateway", ip.gateway4);
    AfterConcat("", ps, Optional("ipv6.addresses", ip.address6));
    command := AppendOption(command, "ipv6.addresses", ip.address6);
    ps := ps + Optional("ipv6.addresses", ip.address6);
    AfterConcat("", ps, Optional("ipv6.gateway", ip.gateway6));
    command := AppendOption(command, "ipv6.gateway", ip.gateway6);
  }

  /** `_common_options_builder` */
  method CommonOptionsBuilder(r: Request) returns (options: string)
    ensures " " + options == After("", CommonPairs(r))
  {
    options := "type " + Render(r.conType) + " con-name " + Render(r.name);
    ghost var ps := TypeAndName(r);
    TypeAndNameText(r);
    AfterConcat("", ps, Optional("ifname", r.ifname));
    AfterPrefix(" ", options, Optional("ifname", r.ifname));
    options := AppendOption(options, "ifname", r.ifname);
    ps := ps + Optional("ifname", r.ifname);
    AfterConcat("", ps, YesNo("autoconnect", r.autoConnect));
    AfterPrefix(" ", options, YesNo("autoconnect", r.autoConnect));
    if r.autoConnect.Some? {
      options := options + Piece("autoconnect", if r.autoConnect.value then "yes" else "no");
    }
    ps := ps + YesNo("autoconnect", r.autoConnect);
    AfterConcat("", ps, YesNo("save", r.save));
    AfterPrefix(" ", options, YesNo("save", r.save));
    if r.save.Some? {
      options := options + Piece("save", if r.save.value then "yes" else "no");
    }
  }

  function TypeAndName(r: Request): seq<Pair> {
    [("type", Render(r.conType)), ("con-name", Render(r.name))]
  }

  lemma TypeAndNameText(r: Request)
    ensures After("", TypeAndName(r)) == " " + ("type " + Render(r.conType) + " con-name " + Render(r.name))
  {
    var t, n, ps := Render(r.conType), Render(r.name), TypeAndName(r);
    assert ps[1..] == [("con-name", n)] && ps[1..][1..] == [];
    var first := "" + Piece("type", t);
    assert After("", ps) == After(first, ps[1..]) == After(first + Piece("con-name", n), []);
    calc {
      first + Piece("con-name", n);
      (" " + "type" + " " + t) + (" " + "con-name" + " " + n);
      { assert " " + "type" + " " == " type " && " " + "con-name" + " " == " con-name "; }
      (" type " + t) + (" con-name " + n);
      { assert " type " == " " + "type "; }
      " " + ("type " + t + " con-name " + n);
    }
  }

  /** `_nmcli_cmd_builder`: the text is the argument list joined by single blanks. */
  method CommandBuilder(r: Request) returns (command: string)
    ensures command == Join(Arguments(r), " ")
  {
    command := "nmcli " + r.objectType + " " + r.operation;
    ghost var front: seq<Pair> := [];
    JoinHead(r);
    if r.operation == DELETE || r.operation == MODIFY {
      command := command + (" " + Render(r.name));
    } else if r.operation == ADD {
      var common := CommonOptionsBuilder(r);
      front := CommonPairs(r);
      AfterPrefix(command, "", front);
      assert command + "" == command;
      command := command + (" " + common);
    }
    ghost var head, ps := Join(Head(r), " "), front;
    for i := 0 to |r.typeOptions|
      invariant ps == front + TypePairs(r.typeOptions[..i])
      invariant command == After(head, ps)
    {
      var (key, value) := r.typeOptions[i];
      assert r.typeOptions[..i + 1][..i] == r.typeOptions[..i];
      AfterConcat(head, ps, [(key, Render(value))]);
      command := command + Piece(key, Render(value));
      ps := ps + [(key, Render(value))];
    }
    assert r.typeOptions[..|r.typeOptions|] == r.typeOptions;
    var ip := IpOptionsBuilder(r.ip);
    AfterPrefix(command, "", IpPairs(r.ip));
    AfterConcat(head, ps, IpPairs(r.ip));
    assert command + "" == command;
    command := command + ip;
    JoinAfter(Head(r), Pairs(r));
  }

  lemma JoinHead(r: Request)
    ensures Join(Head(r), " ") == "nmcli " + r.objectType + " " + r.operation +
      (if r.operation == DELETE || r.operation == MODIFY then " " + Render(r.name) else "")
  {
    JoinSnoc(["nmcli"], r.objectType, " ");
    JoinSnoc(["nmcli", r.objectType], r.operation, " ");
    assert ["nmcli"] + [r.objectType] == ["nmcli", r.objectType];
    assert "nmcli" + " " == "nmcli ";
    var ws := ["nmcli", r.objectType, r.operation];
    assert ["nmcli", r.objectType] + [r.operation] == ws;
    if r.operation == DELETE || r.operation == MODIFY {
      JoinSnoc(ws, Render(r.name), " ");
      assert Join(ws, " ") + " " + Render(r.name) == Join(ws, " ") + (" " + Render(r.name));
    } else {
      assert ws + [] == ws;
      assert Join(ws, " ") + "" == Join(ws, " ");
    }
  }

  lemma PieceText(text: string, key: string, value: string)
    ensures text + " " + key + " " + value == text + Piece(key, value)
  {
  }

  lemma {:induction false} JoinAfter(ws: seq<string>, pairs: seq<Pair>)
    requires ws != []
    ensures Join(ws + Flatten(pairs), " ") == After(Join(ws, " "), pairs)
    decreases |pairs|
  {
    if pairs == [] {
      assert ws + [] == ws;
    } else {
      var p, more := pairs[0], Flatten(pairs[1..]);
      var longer := ws + [p.0] + [p.1];
      assert ws + Flatten(pairs) == longer + more;
      LongerText(ws, p.0, p.1);
      JoinAfter(longer, pairs[1..]);
    }
  }

  lemma LongerText(ws: seq<string>, key: string, value: string)
    requires ws != []
    ensures Join(ws + [key] + [value], " ") == Join(ws, " ") + Piece(key, value)
  {
    JoinSnoc(ws, key, " ");
    JoinSnoc(ws + [key], value, " ");
    PieceText(Join(ws, " "), key, value);
  }

  // ---------------------------------------------------------------- tokenising

  /** Where `shlex.split` cuts a text without quoting. */
  predicate IsShellBlank(c: char) {
    c == ' ' || c == '\t' || c == '\r' || c == '\n'
  }

  predicate IsQuoting(c: char) {
    c == '"' || c == '\'' || c == '\\'
  }

  const SHELL_BLANKS := " \t\r\n"
  const QUOTING := "\"'\\"

  lemma ShellCharacters(c: char)
    ensures IsShellBlank(c) <==> c in SHELL_BLANKS
    ensures IsQuoting(c) <==> c in QUOTING
  {
    assert SHELL_BLANKS[0] == ' ' && SHELL_BLANKS[1] == '\t' && SHELL_BLANKS[2] == '\r' && SHELL_BLANKS[3] == '\n';
    assert QUOTING[0] == '"' && QUOTING[1] == '\'' && QUOTING[2] == '\\';
  }

  /** `shlex.split`, for texts without quoting. */
  function Tokenise(command: string): seq<string>
    requires Free(command, IsQuoting)
  {
    Words(command, IsShellBlank)
  }

  /** Reading an argument list as key/value pairs; an odd word at the end is left alone. */
  function PairUp(ws: seq<string>): seq<Pair> {
    if |ws| < 2 then [] else [(ws[0], ws[1])] + PairUp(ws[2..])
  }

  /**
   The argument list that is run is the one the request stands for, exactly when every word in it is
   non-empty and free of blanks; and then the pairs can be read back from behind the head.
   */
  lemma CommandSurvivesTokenising(r: Request)
    requires Free(Join(Arguments(r), " "), IsQuoting)
    ensures var ws := Tokenise(Join(Arguments(r), " "));
            && (ws == Arguments(r) <==> AreWords(Arguments(r), IsShellBlank))
            && (AreWords(Arguments(r), IsShellBlank) ==>
                  |ws| >= |Head(r)| && ws[..|Head(r)|] == Head(r) && PairUp(ws[|Head(r)|..]) == Pairs(r))
  {
    WordsJoin(Arguments(r), ' ', IsShellBlank);
    ArgumentsTakenApart(r);
  }

  lemma {:induction false} PairUpFlatten(pairs: seq<Pair>)
    ensures PairUp(Flatten(pairs)) == pairs
    decreases |pairs|
  {
    if pairs != [] {
      PairUpFlatten(pairs[1..]);
      assert Flatten(pairs)[2..] == Flatten(pairs[1..]);
    }
  }

  /** The IP options are the last pairs of the command, whatever else it holds. */
  lemma IpOptionsComeLast(r: Request)
    ensures var args, ip := Arguments(r), Flatten(IpPairs(r.ip));
            |ip| <= |args| && args[|args| - |ip|..] == ip
  {
    var front := (if r.operation == ADD then CommonPairs(r) else []) + TypePairs(r.typeOptions);
    FlattenConcat(front, IpPairs(r.ip));
    assert Pairs(r) == front + IpPairs(r.ip);
    assert Arguments(r) == (Head(r) + Flatten(front)) + Flatten(IpPairs(r.ip));
  }

  lemma {:induction false} FlattenConcat(a: seq<Pair>, b: seq<Pair>)
    ensures Flatten(a + b) == Flatten(a) + Flatten(b)
    decreases |a|
  {
    if a == [] {
      assert a + b == b;
    } else {
      assert (a + b)[1..] == a[1..] + b;
      FlattenConcat(a[1..], b);
    }
  }

  /** Two well-formed requests with the same command text agree on the head and on every pair. */
  lemma CommandDecidesRequest(r: Request, s: Request)
    requires AreWords(Arguments(r), IsShellBlank) && AreWords(Arguments(s), IsShellBlank)
    requires Join(Arguments(r), " ") == Join(Arguments(s), " ")
    ensures Head(r) == Head(s) && Pairs(r) == Pairs(s)
  {
    WordsJoin(Arguments(r), ' ', IsShellBlank);
    WordsJoin(Arguments(s), ' ', IsShellBlank);
    assert Arguments(r) == Arguments(s);
    assert r.operation == Arguments(r)[2] == Arguments(s)[2] == s.operation;
    ArgumentsTakenApart(r);
    ArgumentsTakenApart(s);
  }

  lemma ArgumentsTakenApart(r: Request)
    ensures var args, n := Arguments(r), |Head(r)|;
            n <= |args| && args[..n] == Head(r) && PairUp(args[n..]) == Pairs(r)
  {
    assert Arguments(r)[|Head(r)|..] == Flatten(Pairs(r));
    PairUpFlatten(Pairs(r));
  }

  // ---------------------------------------------------------------- what the add calls pass on

  /** An option of a call: its keyword on the command line, and its text if it is to appear. */
  datatype Slot = Slot(key: string, value: Option<string>)

  /** The text of an option that is given: not None, nor the empty text, nor zero. */
  function Shown(o: Option<Value>): Option<string> {
    match o
    case None => None
    case Some(Str(text)) => if text == "" then None else Some(text)
    case Some(Number(n)) => if n == 0 then None else Some(IntText(n))
  }

  function YesNoText(o: Option<bool>): Option<string> {
    if o.Some? then Some(if o.value then "yes" else "no") else None
  }

  predicate IsAdd(c: Call) {
    !c.ModifyConnection? && !c.DeleteConnection? && !c.ModifyDevice?
  }

  /** The options particular to the type of connection, as the methods document them. */
  function TypeSlots(c: Call): seq<Slot>
    requires IsAdd(c)
  {
    match c
    case AddEthernet(_, _, mac, mtu, _) => [Slot("mac", Shown(mac)), Slot("mtu", Shown(mtu))]
    case AddBond(_, _, mode, primary, miimon, _) =>
      [Slot("mode", Shown(mode)), Slot("miimon", Shown(miimon)), Slot("primary", Shown(primary))]
    case AddSlave(_, _, _, master, _) => [Slot("master", Shown(master))]
    case AddVlan(_, dev, id, mtu, _) =>
      [Slot("dev", Some(Render(dev))), Slot("id", Some(Render(id))), Slot("mtu", Shown(mtu))]
    case AddDummy(_, _, _) => []
  }

  function IpSlots(ip: IpOptions): seq<Slot> {
    [Slot("ipv4.method", Shown(ip.method4)), Slot("ipv6.method", Shown(ip.method6)),
     Slot("ipv4.addresses", Shown(ip.address4)), Slot("ipv4.gateway", Shown(ip.gateway4)),
     Slot("ipv6.addresses", Shown(ip.address6)), Slot("ipv6.gateway", Shown(ip.gateway6))]
  }

  /** The type of connection a call adds. */
  function TypeText(c: Call): string
    requires IsAdd(c)
  {
    match c
    case AddEthernet(_, _, _, _, _) => "ethernet"
    case AddBond(_, _, _, _, _, _) => "bond"
    case AddSlave(_, slaveType, _, _, _) => Render(slaveType)
    case AddVlan(_, _, _, _, _) => "vlan"
    case AddDummy(_, _, _) => "dummy"
  }

  /** The options all add calls have; a vlan has no interface name of its own. */
  function CommonSlots(c: Call): seq<Slot>
    requires IsAdd(c)
  {
    [Slot("type", Some(TypeText(c))), Slot("con-name", Some(Render(c.name))),
     Slot("ifname", if c.AddVlan? then None else Shown(c.ifname)),
     Slot("autoconnect", YesNoText(c.common.autoConnect)), Slot("save", YesNoText(c.common.save))]
  }

  /** Every option an add call has, taken from the call's own arguments. */
  function Slots(c: Call): seq<Slot>
    requires IsAdd(c)
  {
    CommonSlots(c) + TypeSlots(c) + IpSlots(c.common.ip)
  }

  function One(x: Slot): seq<Pair> {
    if x.value.Some? then [(x.key, x.value.value)] else []
  }

  function Filled(slots: seq<Slot>): seq<Pair> {
    if slots == [] then [] else One(slots[0]) + Filled(slots[1..])
  }

  function Lookup(pairs: seq<Pair>, key: string): Option<string> {
    if pairs == [] then None else if pairs[0].0 == key then Some(pairs[0].1) else Lookup(pairs[1..], key)
  }

  predicate DistinctKeys(slots: seq<Slot>) {
    forall i, j :: 0 <= i < j < |slots| ==> slots[i].key != slots[j].key
  }

  lemma FilledCons(x: Slot, rest: seq<Slot>)
    ensures Filled([x] + rest) == One(x) + Filled(rest)
  {
    assert ([x] + rest)[1..] == rest;
  }

  lemma {:induction false} FilledConcat(a: seq<Slot>, b: seq<Slot>)
    ensures Filled(a + b) == Filled(a) + Filled(b)
    decreases |a|
  {
    if a == [] {
      assert a + b == b;
    } else {
      var x, rest := a[0], a[1..];
      assert a == [x] + rest && a + b == [x] + (rest + b);
      FilledCons(x, rest);
      FilledCons(x, rest + b);
      FilledConcat(rest, b);
    }
  }

  lemma FilledSnoc(slots: seq<Slot>, x: Slot)
    ensures Filled(slots + [x]) == Filled(slots) + One(x)
  {
    FilledConcat(slots, [x]);
    assert [x][1..] == [] && One(x) + [] == One(x);
  }

  lemma {:induction false} LookupFilled(slots: seq<Slot>, i: nat)
    requires DistinctKeys(slots) && i < |slots|
    ensures Lookup(Filled(slots), slots[i].key) == slots[i].value
    decreases |slots|
  {
    var rest := slots[1..];
    assert DistinctKeys(rest);
    if i > 0 {
      LookupFilled(rest, i - 1);
      assert slots[0].key != slots[i].key;
    } else {
      LookupAbsent(rest, slots[0].key);
    }
    if slots[0].value.Some? {
      assert Filled(slots)[1..] == Filled(rest);
    } else {
      assert Filled(slots) == Filled(rest);
    }
  }

  lemma {:induction false} LookupAbsent(slots: seq<Slot>, key: string)
    requires forall j :: 0 <= j < |slots| ==> slots[j].key != key
    ensures Lookup(Filled(slots), key) == None
    decreases |slots|
  {
    if slots != [] {
      LookupAbsent(slots[1..], key);
      if slots[0].value.Some? {
        assert Filled(slots)[1..] == Filled(slots[1..]);
      } else {
        assert Filled(slots) == Filled(slots[1..]);
      }
    }
  }

  lemma {:induction false} TypePairsConcat(a: seq<(string, Value)>, b: seq<(string, Value)>)
    ensures TypePairs(a + b) == TypePairs(a) + TypePairs(b)
    decreases |b|
  {
    if b == [] {
      assert a + b == a;
    } else {
      var n := |b| - 1;
      assert (a + b)[..|a| + n] == a + b[..n];
      TypePairsConcat(a, b[..n]);
    }
  }

  lemma TypePairsOne(key: string, v: Value)
    ensures TypePairs([(key, v)]) == [(key, Render(v))]
  {
    assert [(key, v)][..0] == [];
  }

  lemma TypePairsIfTruthy(key: string, o: Option<Value>)
    ensures TypePairs(IfTruthy(key, o)) == Filled([Slot(key, Shown(o))])
  {
    FilledSnoc([], Slot(key, Shown(o)));
    assert [] + [Slot(key, Shown(o))] == [Slot(key, Shown(o))];
    if Truthy(o) {
      TypePairsOne(key, o.value);
    }
  }

  /** Two options in a row, each as its own lemma has it. */
  lemma JoinOptions(a: seq<(string, Value)>, x: seq<Slot>, b: seq<(string, Value)>, y: seq<Slot>)
    requires TypePairs(a) == Filled(x) && TypePairs(b) == Filled(y)
    ensures TypePairs(a + b) == Filled(x + y)
  {
    TypePairsConcat(a, b);
    FilledConcat(x, y);
  }

  lemma DeviceAndId(dev: Value, id: Value)
    ensures TypePairs([("dev", dev), ("id", id)])
         == Filled([Slot("dev", Some(Render(dev))), Slot("id", Some(Render(id)))])
  {
    var x, y := Slot("dev", Some(Render(dev))), Slot("id", Some(Render(id)));
    TypePairsConcat([("dev", dev)], [("id", id)]);
    TypePairsOne("dev", dev);
    TypePairsOne("id", id);
    FilledSnoc([], x);
    FilledSnoc([x], y);
    assert [] + [x] == [x] && [x] + [y] == [x, y] && [("dev", dev)] + [("id", id)] == [("dev", dev), ("id", id)];
  }

  lemma TypeSlotsFilled(c: Call)
    requires IsAdd(c)
    ensures TypePairs(RequestOf(c).typeOptions) == Filled(TypeSlots(c))
  {
    match c
    case AddEthernet(_, _, mac, mtu, _) =>
      TypePairsIfTruthy("mac", mac);
      TypePairsIfTruthy("mtu", mtu);
      JoinOptions(IfTruthy("mac", mac), [Slot("mac", Shown(mac))], IfTruthy("mtu", mtu), [Slot("mtu", Shown(mtu))]);
      assert TypeSlots(c) == [Slot("mac", Shown(mac))] + [Slot("mtu", Shown(mtu))];
    case AddBond(_, _, mode, primary, miimon, _) =>
      TypePairsIfTruthy("mode", mode);
      TypePairsIfTruthy("miimon", miimon);
      TypePairsIfTruthy("primary", primary);
      var x, y, z := [Slot("mode", Shown(mode))], [Slot("miimon", Shown(miimon))], [Slot("primary", Shown(primary))];
      JoinOptions(IfTruthy("mode", mode), x, IfTruthy("miimon", miimon), y);
      JoinOptions(IfTruthy("mode", mode) + IfTruthy("miimon", miimon), x + y, IfTruthy("primary", primary), z);
      assert TypeSlots(c) == x + y + z;
    case AddSlave(_, _, _, master, _) =>
      TypePairsIfTruthy("master", master);
    case AddVlan(_, dev, id, mtu, _) =>
      DeviceAndId(dev, id);
      TypePairsIfTruthy("mtu", mtu);
      JoinOptions([("dev", dev), ("id", id)], [Slot("dev", Some(Render(dev))), Slot("id", Some(Render(id)))],
                  IfTruthy("mtu", mtu), [Slot("mtu", Shown(mtu))]);
      assert TypeSlots(c) == [Slot("dev", Some(Render(dev))), Slot("id", Some(Render(id)))] + [Slot("mtu", Shown(mtu))];
    case AddDummy(_, _, _) =>
  }

  lemma OptionalFilled(pairs: seq<Pair>, slots: seq<Slot>, key: string, o: Option<Value>)
    requires pairs == Filled(slots)
    ensures pairs + Optional(key, o) == Filled(slots + [Slot(key, Shown(o))])
  {
    FilledSnoc(slots, Slot(key, Shown(o)));
  }

  lemma IpSlotsFilled(ip: IpOptions)
    ensures IpPairs(ip) == Filled(IpSlots(ip))
  {
    var s := IpSlots(ip);
    assert s[..1] == [] + [s[0]] && s[..2] == s[..1] + [s[1]] && s[..3] == s[..2] + [s[2]];
    assert s[..4] == s[..3] + [s[3]] && s[..5] == s[..4] + [s[4]] && s == s[..5] + [s[5]];
    var p1 := [] + Optional("ipv4.method", ip.method4);
    OptionalFilled([], [], "ipv4.method", ip.method4);
    var p2 := p1 + Optional("ipv6.method", ip.method6);
    OptionalFilled(p1, s[..1], "ipv6.method", ip.method6);
    var p3 := p2 + Optional("ipv4.addresses", ip.address4);
    OptionalFilled(p2, s[..2], "ipv4.addresses", ip.address4);
    var p4 := p3 + Optional("ipv4.gateway", ip.gateway4);
    OptionalFilled(p3, s[..3], "ipv4.gateway", ip.gateway4);
    var p5 := p4 + Optional("ipv6.addresses", ip.address6);
    OptionalFilled(p4, s[..4], "ipv6.addresses", ip.address6);
    OptionalFilled(p5, s[..5], "ipv6.gateway", ip.gateway6);
    assert p1 == Optional("ipv4.method", ip.method4);
  }

  lemma CommonSlotsFilled(c: Call)
    requires IsAdd(c)
    ensures CommonPairs(RequestOf(c)) == Filled(CommonSlots(c))
  {
    var s, r := CommonSlots(c), RequestOf(c);
    assert s[..1] == [] + [s[0]] && s[..2] == s[..1] + [s[1]] && s[..3] == s[..2] + [s[2]];
    assert s[..4] == s[..3] + [s[3]] && s == s[..4] + [s[4]];
    FilledSnoc([], s[0]);
    FilledSnoc(s[..1], s[1]);
    assert Filled(s[..2]) == [("type", TypeText(c)), ("con-name", Render(c.name))];
    OptionalFilled(Filled(s[..2]), s[..2], "ifname", r.ifname);
    FilledSnoc(s[..3], s[3]);
    FilledSnoc(s[..4], s[4]);
  }

  /** The whole argument list of an add call: the literal head, and each given option's keyword and text. */
  lemma ArgumentsOfAdd(c: Call)
    requires IsAdd(c)
    ensures Arguments(RequestOf(c)) == ["nmcli", "connection", "add"] + Flatten(Filled(Slots(c)))
  {
    HeadOfAdd(c);
    PairsOfAdd(c);
  }

  lemma HeadOfAdd(c: Call)
    requires IsAdd(c)
    ensures Head(RequestOf(c)) == ["nmcli", "connection", "add"]
  {
    var r := RequestOf(c);
    assert r.operation[0] == 'a' && r.objectType == "connection";
  }

  lemma PairsOfAdd(c: Call)
    requires IsAdd(c)
    ensures Pairs(RequestOf(c)) == Filled(Slots(c))
  {
    var r := RequestOf(c);
    CommonSlotsFilled(c);
    TypeSlotsFilled(c);
    IpSlotsFilled(r.ip);
    FilledConcat(CommonSlots(c), TypeSlots(c));
    FilledConcat(CommonSlots(c) + TypeSlots(c), IpSlots(r.ip));
  }

  /** Property by property, the keyword and the value. */
  function PropertyWords(properties: seq<(string, Value)>): seq<string> {
    if properties == [] then []
    else [properties[0].0, Render(properties[0].1)] + PropertyWords(properties[1..])
  }

  /** The whole argument lists of the calls that change and delete. */
  lemma ArgumentsOfOthers(name: Value, properties: seq<(string, Value)>)
    ensures Arguments(RequestOf(ModifyConnection(name, properties)))
         == ["nmcli", "connection", "modify", Render(name)] + PropertyWords(properties)
    ensures Arguments(RequestOf(ModifyDevice(name, properties)))
         == ["nmcli", "device", "modify", Render(name)] + PropertyWords(properties)
    ensures Arguments(RequestOf(DeleteConnection(name))) == ["nmcli", "connection", "delete", Render(name)]
  {
    PlainArguments(RequestOf(ModifyConnection(name, properties)), "modify");
    PlainArguments(RequestOf(ModifyDevice(name, properties)), "modify");
    PlainArguments(RequestOf(DeleteConnection(name)), "delete");
    assert PropertyWords([]) == [];
  }

  lemma PlainArguments(r: Request, operation: string)
    requires r.operation == operation && (operation == "modify" || operation == "delete") && r.ip == NO_IP
    ensures Arguments(r) == ["nmcli", r.objectType, operation, Render(r.name)] + PropertyWords(r.typeOptions)
  {
    assert operation[0] != 'a';
    assert IpPairs(NO_IP) == [];
    assert Pairs(r) == TypePairs(r.typeOptions);
    FlattenProperties(r.typeOptions);
  }

  lemma {:induction false} FlattenProperties(properties: seq<(string, Value)>)
    ensures Flatten(TypePairs(properties)) == PropertyWords(properties)
    decreases |properties|
  {
    if properties != [] {
      var first, rest := properties[0], properties[1..];
      assert properties == [first] + rest;
      TypePairsConcat([first], rest);
      TypePairsOne(first.0, first.1);
      FlattenProperties(rest);
    }
  }

  /**
   From the call to the command that is run and back: for every add call whose words are well formed,
   looking any of its options up in the argument list gives that option's text, and nothing if the
   option is left out.
   */
  lemma AddCallsArriveWhole(c: Call, i: nat)
    requires IsAdd(c) && i < |Slots(c)|
    requires AreWords(Arguments(RequestOf(c)), IsShellBlank) && Free(Join(Arguments(RequestOf(c)), " "), IsQuoting)
    ensures var ws := Tokenise(Join(Arguments(RequestOf(c)), " "));
            && |ws| >= 3 && ws[..3] == ["nmcli", "connection", "add"]
            && Lookup(PairUp(ws[3..]), Slots(c)[i].key) == Slots(c)[i].value
  {
    CommandSurvivesTokenising(RequestOf(c));
    ArgumentsOfAdd(c);
    assert Arguments(RequestOf(c))[3..] == Flatten(Filled(Slots(c)));
    PairUpFlatten(Filled(Slots(c)));
    KeysNeverClash(c);
    LookupFilled(Slots(c), i);
  }

  /** The keywords of a call never clash. */
  lemma KeysNeverClash(c: Call)
    requires IsAdd(c)
    ensures DistinctKeys(Slots(c))
  {
    var common, particular, ip := CommonSlots(c), TypeSlots(c), IpSlots(c.common.ip);
    CommonKeys(c);
    TypeKeys(c);
    DistinctConcat(common, particular);
    IpKeysDistinct(c.common.ip);
    DistinctConcat(common + particular, ip);
  }

  predicate LooksParticular(key: string) {
    |key| == 2 || (|key| > 2 && (key[0] == 'm' || key[0] == 'p' || key[0] == 'd'))
  }

  lemma CommonKeys(c: Call)
    requires IsAdd(c)
    ensures DistinctKeys(CommonSlots(c))
    ensures forall x :: x in CommonSlots(c) ==> !LooksParticular(x.key) && |x.key| > 1 && x.key[1] != 'p'
  {
    var s := CommonSlots(c);
    assert s[0].key[0] == 't' && s[1].key[0] == 'c' && s[2].key[0] == 'i' && s[3].key[0] == 'a' && s[4].key[0] == 's';
  }

  lemma TypeKeys(c: Call)
    requires IsAdd(c)
    ensures DistinctKeys(TypeSlots(c))
    ensures forall x :: x in TypeSlots(c) ==> LooksParticular(x.key) && x.key[1] != 'p'
  {
  }

  lemma IpKeysDistinct(ip: IpOptions)
    ensures DistinctKeys(IpSlots(ip))
    ensures forall x :: x in IpSlots(ip) ==> |x.key| > 1 && x.key[1] == 'p'
  {
  }

  lemma DistinctConcat(a: seq<Slot>, b: seq<Slot>)
    requires DistinctKeys(a) && DistinctKeys(b)
    requires forall x, y :: x in a && y in b ==> x.key != y.key
    ensures DistinctKeys(a + b)
  {
    var s := a + b;
    forall i, j | 0 <= i < j < |s| ensures s[i].key != s[j].key {
      if i < |a| <= j {
        assert s[i] in a && s[j] in b;
      }
    }
  }

  // ---------------------------------------------------------------- get_all_connections

  datatype Profile = Profile(name: string, uuid: string, kind: string, device: string)

  /** Reading one of `properties[0..3]` past the end. */
  datatype Error = IndexError

  function ParseProfile(line: string): Result<Profile, Error> {
    var ps := Split(line, ":");
    if |ps| < 4 then Err(IndexError) else Ok(Profile(ps[0], ps[1], ps[2], ps[3]))
  }

  function ParseProfiles(lines: seq<string>): Result<seq<Profile>, Error> {
    if lines == [] then Ok([])
    else match ParseProfile(lines[0])
      case Err(e) => Err(e)
      case Ok(p) => Onto([p], ParseProfiles(lines[1..]))
  }

  method GetAllConnections(out: string) returns (r: Result<seq<Profile>, Error>)
    ensures r == ParseProfiles(SplitLines(out))
  {
    var connections: seq<Profile> := [];
    var lines := SplitLines(out);
    for i := 0 to |lines|
      invariant ParseProfiles(lines) == Onto(connections, ParseProfiles(lines[i..]))
    {
      assert lines[i..][0] == lines[i] && lines[i..][1..] == lines[i + 1..];
      var properties := Split(lines[i], ":");
      if |properties| < 4 {
        return Err(IndexError);
      }
      var profile := Profile(properties[0], properties[1], properties[2], properties[3]);
      OntoTwice(connections, profile, ParseProfiles(lines[i + 1..]));
      connections := connections + [profile];
    }
    assert connections + [] == connections;
    return Ok(connections);
  }

  function Onto(ps: seq<Profile>, r: Result<seq<Profile>, Error>): (s: Result<seq<Profile>, Error>)
    ensures ps == [] ==> s == r
  {
    match r
    case Err(e) => Err(e)
    case Ok(rest) =>
      assert [] + rest == rest;
      Ok(ps + rest)
  }

  lemma OntoTwice(ps: seq<Profile>, p: Profile, r: Result<seq<Profile>, Error>)
    ensures Onto(ps, Onto([p], r)) == Onto(ps + [p], r)
  {
    if r.Ok? {
      assert ps + ([p] + r.value) == ps + [p] + r.value;
    }
  }

  function Fields(p: Profile): seq<string> {
    [p.name, p.uuid, p.kind, p.device]
  }

  function PrintProfiles(ps: seq<Profile>): seq<string> {
    if ps == [] then [] else [Join(Fields(ps[0]), ":")] + PrintProfiles(ps[1..])
  }

  predicate PlainField(s: string) {
    ':' !in s && Free(s, IsLineBreak)
  }

  predicate PlainProfiles(ps: seq<Profile>) {
    ps == [] ||
    (PlainField(ps[0].name) && PlainField(ps[0].uuid) && PlainField(ps[0].kind) && PlainField(ps[0].device)
     && PlainProfiles(ps[1..]))
  }

  /** Profiles come back as printed, empty devices included, exactly when no field holds a colon or a line break. */
  lemma ListingInvertsPrinting(ps: seq<Profile>)
    ensures ParseProfiles(SplitLines(Unlines(PrintProfiles(ps)))) == Ok(ps) <==> PlainProfiles(ps)
  {
    var lines := SplitLines(Unlines(PrintProfiles(ps)));
    SplitLinesSpec(Unlines(PrintProfiles(ps)));
    if ParseProfiles(lines) == Ok(ps) {
      ParsedArePlain(lines);
    }
    if PlainProfiles(ps) {
      PrintedProfileLines(ps);
      SplitUnlines(PrintProfiles(ps));
      ParsesPrintedProfiles(ps);
    }
  }

  /** A line of three or fewer fields breaks the listing; fields behind the fourth are dropped. */
  lemma ProfileOfFields(fields: seq<string>)
    requires fields != [] && forall i :: 0 <= i < |fields| ==> ':' !in fields[i]
    ensures ParseProfile(Join(fields, ":"))
         == if |fields| < 4 then Err(IndexError) else Ok(Profile(fields[0], fields[1], fields[2], fields[3]))
  {
    SplitSafeChar(fields, ':');
    SplitJoin(fields, ":");
  }

  lemma {:induction false} ListingFailsIffShortLine(lines: seq<string>)
    ensures ParseProfiles(lines).Ok? <==> forall i :: 0 <= i < |lines| ==> ParseProfile(lines[i]).Ok?
    ensures ParseProfiles(lines).Ok? ==> |ParseProfiles(lines).value| == |lines|
    ensures ParseProfiles(lines).Ok? ==>
              forall i :: 0 <= i < |lines| ==> ParseProfile(lines[i]) == Ok(ParseProfiles(lines).value[i])
    decreases |lines|
  {
    if lines != [] {
      var rest := lines[1..];
      ListingFailsIffShortLine(rest);
      assert forall i :: 0 < i < |lines| ==> lines[i] == rest[i - 1];
      if i :| 0 <= i < |rest| && ParseProfile(rest[i]).Err? {
        assert lines[i + 1] == rest[i];
      }
    }
  }

  lemma {:induction false} ParsedArePlain(lines: seq<string>)
    requires AreLines(lines) && ParseProfiles(lines).Ok?
    ensures PlainProfiles(ParseProfiles(lines).value)
    decreases |lines|
  {
    if lines != [] {
      var ps := Split(lines[0], ":");
      SplitSpec(lines[0], ":");
      forall i | 0 <= i < |ps| ensures PlainField(ps[i]) {
        ContainsChar(ps[i], ':');
        PartsFree(ps, ":", IsLineBreak, i);
      }
      assert AreLines(lines[1..]);
      ParsedArePlain(lines[1..]);
    }
  }

  lemma {:induction false} PartsFree(parts: seq<string>, sep: string, p: char -> bool, i: nat)
    requires i < |parts| && Free(Join(parts, sep), p)
    ensures Free(parts[i], p)
    decreases |parts|
  {
    var text := Join(parts, sep);
    if |parts| > 1 {
      var rest := Join(parts[1..], sep);
      assert text[..|parts[0]|] == parts[0] && text[|parts[0] + sep|..] == rest;
      if i > 0 {
        PartsFree(parts[1..], sep, p, i - 1);
      }
    }
  }

  lemma JoinFieldsIsLine(p: Profile)
    requires PlainField(p.name) && PlainField(p.uuid) && PlainField(p.kind) && PlainField(p.device)
    ensures Free(Join(Fields(p), ":"), IsLineBreak)
  {
    JoinCons(p.kind, [p.device], ":");
    JoinCons(p.uuid, [p.kind] + [p.device], ":");
    JoinCons(p.name, [p.uuid] + ([p.kind] + [p.device]), ":");
    assert Fields(p) == [p.name] + ([p.uuid] + ([p.kind] + [p.device]));
  }

  lemma {:induction false} PrintedProfileLines(ps: seq<Profile>)
    requires PlainProfiles(ps)
    ensures AreLines(PrintProfiles(ps))
    decreases |ps|
  {
    if ps != [] {
      JoinFieldsIsLine(ps[0]);
      PrintedProfileLines(ps[1..]);
    }
  }

  lemma {:induction false} ParsesPrintedProfiles(ps: seq<Profile>)
    requires PlainProfiles(ps)
    ensures ParseProfiles(PrintProfiles(ps)) == Ok(ps)
    decreases |ps|
  {
    if ps != [] {
      SplitSafeChar(Fields(ps[0]), ':');
      SplitJoin(Fields(ps[0]), ":");
      assert ParseProfile(Join(Fields(ps[0]), ":")) == Ok(ps[0]);
      ParsesPrintedProfiles(ps[1..]);
      assert [ps[0]] + ps[1..] == ps;
    }
  }
}
