/** The connection string of the ASCOM driver: printed and parsed (ascom/AstroMountTelescope.cs). */
module ConnectionStrings {
  import opened Options
  import opened Strings

  datatype Endpoint = Endpoint(host: string, port: int32, useSsl: bool)

  /** The value carried by `part` when its key is `key`. */
  function ValueFor(part: string, key: string): Option<string> {
    var kv := SplitTwo(part, '=');
    if |kv| == 2 && Lower(Trim(kv[0])) == key then Some(Trim(kv[1])) else None
  }

  function HostIn(part: string): Option<string> {
    match ValueFor(part, "host")
    case Some(val) => if val != "" then Some(val) else None
    case None => None
  }

  function PortIn(part: string): Option<int32> {
    match ValueFor(part, "port")
    case Some(val) => TryParse(val)
    case None => None
  }

  /** Any value of an ssl or tls key counts; all but "1" and "true" mean off. */
  function SslIn(part: string): Option<bool> {
    match ValueFor(part, "ssl")
    case Some(val) => Some(IsTrue(val))
    case None =>
      match ValueFor(part, "tls")
      case Some(val) => Some(IsTrue(val))
      case None => None
  }

  predicate IsTrue(val: string) {
    val == "1" || Lower(val) == "true"
  }

  function Or<T>(found: Option<T>, otherwise: T): T {
    if found.Some? then found.value else otherwise
  }

  function ApplyPart(e: Endpoint, part: string): Endpoint {
    Endpoint(Or(HostIn(part), e.host), Or(PortIn(part), e.port), Or(SslIn(part), e.useSsl))
  }

  function ApplyParts(e: Endpoint, parts: seq<string>): Endpoint
    decreases |parts|
  {
    if parts == [] then e else ApplyParts(ApplyPart(e, parts[0]), parts[1..])
  }

  /** The effect of ApplyConnectionString; a null or blank string changes nothing. */
  function Applied(e: Endpoint, value: Option<string>): Endpoint {
    if value.None? || Blank(value.value) then e else ApplyParts(e, Split(value.value, ';'))
  }

  /** The connection string of an endpoint. */
  function Printed(e: Endpoint): string {
    "host=" + e.host + ";port=" + IntText(e.port) + (if e.useSsl then ";ssl=1" else "")
  }

  class AstroMountTelescope {
    var host: string
    var port: int32
    var useSsl: bool

    function State(): Endpoint
      reads this
    {
      Endpoint(host, port, useSsl)
    }

    /** The getter of the property. */
    function ConnectionString(): string
      reads this
    {
      Printed(State())
    }

    method ApplyConnectionString(value: Option<string>)
      modifies this
      ensures State() == Applied(old(State()), value)
    {
      if value.None? || Blank(value.value) {
        return;
      }
      var parts := Split(value.value, ';');
      for i := 0 to |parts|
        invariant ApplyParts(State(), parts[i..]) == ApplyParts(old(State()), parts)
      {
        ghost var before := State();
        assert parts[i..][0] == parts[i] && parts[i..][1..] == parts[i + 1..];
        var kv := SplitTwo(parts[i], '=');
        if |kv| != 2 {
          assert ApplyPart(before, parts[i]) == State();
          continue;
        }
        var key := Lower(Trim(kv[0]));
        var val := Trim(kv[1]);
        if key == "host" && |val| > 0 {
          host := val;
        } else if key == "port" && TryParse(val).Some? {
          port := TryParse(val).value;
        } else if key == "ssl" || key == "tls" {
          useSsl := val == "1" || Lower(val) == "true";
        }
        assert ApplyPart(before, parts[i]) == State();
      }
    }
  }

  // ---------- Parsing is a fold ----------

  lemma {:induction false} ApplyPartsJoined(e: Endpoint, p: seq<string>, q: seq<string>)
    ensures ApplyParts(e, p + q) == ApplyParts(ApplyParts(e, p), q)
    decreases |p|
  {
    if p == [] {
      assert p + q == q;
    } else {
      assert (p + q)[0] == p[0] && (p + q)[1..] == p[1..] + q;
      ApplyPartsJoined(ApplyPart(e, p[0]), p[1..], q);
    }
  }

  /** Without a '=' a text sets nothing. */
  lemma PlainPart(e: Endpoint, part: string)
    requires '=' !in part
    ensures ApplyPart(e, part) == e
  {
    SplitTwoAbsent(part, '=');
  }

  /** The early return on a blank string is only a short cut. */
  lemma BlankIsIdle(e: Endpoint, s: string)
    ensures Applied(e, Some(s)) == ApplyParts(e, Split(s, ';'))
  {
    if Blank(s) {
      assert '=' !in s && ';' !in s;
      SplitAbsent(s, ';');
      PlainPart(e, s);
      assert ApplyParts(e, [s]) == ApplyParts(ApplyPart(e, s), []);
    }
  }

  /** Applying s1 + ";" + s2 is applying s1, then s2. */
  lemma JoinedStrings(e: Endpoint, s1: string, s2: string)
    ensures Applied(e, Some(s1 + ";" + s2)) == Applied(Applied(e, Some(s1)), Some(s2))
  {
    BlankIsIdle(e, s1 + ";" + s2);
    BlankIsIdle(e, s1);
    BlankIsIdle(Applied(e, Some(s1)), s2);
    SplitJoined(s1, s2, ';');
    ApplyPartsJoined(e, Split(s1, ';'), Split(s2, ';'));
  }

  /** The value read from the last part that has one, else the current value. */
  function LastValue<T>(parts: seq<string>, read: string -> Option<T>, current: T): T {
    if parts == [] then current
    else if read(parts[|parts| - 1]).Some? then read(parts[|parts| - 1]).value
    else LastValue(parts[..|parts| - 1], read, current)
  }

  /** The last valid value of each key wins, and a key without a valid value keeps its field. */
  lemma {:induction false} LastValueWins(e: Endpoint, parts: seq<string>)
    ensures ApplyParts(e, parts) ==
            Endpoint(LastValue(parts, HostIn, e.host), LastValue(parts, PortIn, e.port), LastValue(parts, SslIn, e.useSsl))
  {
    if parts != [] {
      var init, last := parts[..|parts| - 1], parts[|parts| - 1];
      LastValueWins(e, init);
      assert parts == init + [last];
      ApplyPartsJoined(e, init, [last]);
      assert ApplyParts(ApplyParts(e, init), [last]) == ApplyParts(ApplyPart(ApplyParts(e, init), last), []);
    }
  }

  // ---------- Printing and parsing back ----------

  /** Hosts that a connection string can carry. */
  predicate Printable(host: string) {
    host != "" && Trim(host) == host && ';' !in host
  }

  lemma KeyWords()
    ensures Lower(Trim("host")) == "host" && Lower(Trim("port")) == "port" && Lower(Trim("ssl")) == "ssl"
    ensures Trim("1") == "1"
  {
    Untrimmed("host");
    Untrimmed("port");
    Untrimmed("ssl");
    Untrimmed("1");
    assert Lower("host") == "host" && Lower("port") == "port" && Lower("ssl") == "ssl";
  }

  lemma KeyedPart(key: string, val: string, other: string)
    requires '=' !in key && Lower(Trim(key)) == key
    ensures ValueFor(key + "=" + val, other) == if key == other then Some(Trim(val)) else None
  {
    SplitTwoAt(key, val, '=');
    assert key + ['='] + val == key + "=" + val;
  }

  /** What a part with one of the printed keys assigns. */
  lemma PrintedPart(e: Endpoint, key: string, val: string)
    requires key in ["host", "port", "ssl"]
    ensures var part := key + "=" + val;
            ApplyPart(e, part) ==
            if key == "host" then (if Trim(val) != "" then e.(host := Trim(val)) else e)
            else if key == "port" then e.(port := Or(TryParse(Trim(val)), e.port))
            else e.(useSsl := IsTrue(Trim(val)))
  {
    KeyWords();
    KeyedPart(key, val, "host");
    KeyedPart(key, val, "port");
    KeyedPart(key, val, "ssl");
    KeyedPart(key, val, "tls");
    hide Trim, Lower, TryParse, ValueFor;
  }

  /** The part of the text after the host. */
  function Suffix(e: Endpoint): string {
    "port=" + IntText(e.port) + (if e.useSsl then ";ssl=1" else "")
  }

  lemma OnePart(e: Endpoint, text: string)
    requires ';' !in text
    ensures ApplyParts(e, Split(text, ';')) == ApplyPart(e, text)
  {
    SplitAbsent(text, ';');
    assert ApplyParts(e, [text]) == ApplyParts(ApplyPart(e, text), []);
    hide ApplyPart;
  }

  lemma PortRead(e: Endpoint, port: int32)
    ensures ApplyParts(e, Split("port=" + IntText(port), ';')) == e.(port := port)
  {
    hide IntText, Trim, TryParse, ApplyPart, ApplyParts, Split;
    IntTextPlain(port);
    TryParseIntText(port);
    OnePart(e, "port=" + IntText(port));
    PrintedPart(e, "port", IntText(port));
    assert "port" + "=" + IntText(port) == "port=" + IntText(port);
  }

  lemma TlsRead(e: Endpoint)
    ensures ApplyParts(e, Split("ssl=1", ';')) == e.(useSsl := true)
  {
    hide Trim, ApplyPart, ApplyParts, Split;
    KeyWords();
    OnePart(e, "ssl=1");
    PrintedPart(e, "ssl", "1");
    assert "ssl" + "=" + "1" == "ssl=1";
  }

  lemma HostRead(e: Endpoint, host: string)
    requires Printable(host)
    ensures ApplyParts(e, Split("host=" + host, ';')) == e.(host := host)
  {
    hide Trim, ApplyPart, ApplyParts, Split;
    OnePart(e, "host=" + host);
    PrintedPart(e, "host", host);
    assert "host" + "=" + host == "host=" + host;
  }

  lemma SuffixApplied(e: Endpoint, s: Endpoint)
    ensures ApplyParts(e, Split(Suffix(s), ';')) == e.(port := s.port, useSsl := s.useSsl || e.useSsl)
  {
    var text := "port=" + IntText(s.port);
    hide IntText, ApplyParts, Split;
    PortRead(e, s.port);
    if s.useSsl {
      assert Suffix(s) == text + [';'] + "ssl=1";
      SplitJoined(text, "ssl=1", ';');
      ApplyPartsJoined(e, Split(text, ';'), Split("ssl=1", ';'));
      TlsRead(e.(port := s.port));
    } else {
      assert Suffix(s) == text;
    }
  }

  /** Reading back a printed endpoint: the host's pieces, then the port and, if on, TLS. */
  lemma PrintedApplied(e: Endpoint, s: Endpoint)
    ensures var h := ApplyParts(e, Split("host=" + s.host, ';'));
            Applied(e, Some(Printed(s))) == h.(port := s.port, useSsl := s.useSsl || h.useSsl)
  {
    var head, tail := "host=" + s.host, Suffix(s);
    assert Printed(s) == head + [';'] + tail;
    BlankIsIdle(e, Printed(s));
    SplitJoined(head, tail, ';');
    ApplyPartsJoined(e, Split(head, ';'), Split(tail, ';'));
    SuffixApplied(ApplyParts(e, Split(head, ';')), s);
  }

  /** A printable endpoint is read back from any state, except that TLS is never switched off. */
  lemma PrintedReadBack(e: Endpoint, s: Endpoint)
    requires Printable(s.host)
    ensures Applied(e, Some(Printed(s))) == s.(useSsl := s.useSsl || e.useSsl)
    ensures Applied(s, Some(Printed(s))) == s
    ensures Applied(e, Some(Printed(s))) == s <==> s.useSsl || !e.useSsl
  {
    PrintableApplied(e, s);
    PrintableApplied(s, s);
  }

  lemma PrintableApplied(e: Endpoint, s: Endpoint)
    requires Printable(s.host)
    ensures Applied(e, Some(Printed(s))) == s.(useSsl := s.useSsl || e.useSsl)
  {
    hide Applied, ApplyParts, Split, Printed;
    PrintedApplied(e, s);
    HostRead(e, s.host);
  }

  lemma ReadHost(part: string)
    requires ';' !in part && HostIn(part).Some?
    ensures Printable(HostIn(part).value)
  {
    SplitTwoWithin(part, '=', ';');
    TrimIdempotent(SplitTwo(part, '=')[1], ';');
    hide Trim, SplitTwo, Lower;
  }

  /** A host read from a text is always printable. */
  lemma {:induction false} ReadHosts(parts: seq<string>, current: string)
    requires forall k :: 0 <= k < |parts| ==> ';' !in parts[k]
    ensures if exists k :: 0 <= k < |parts| && HostIn(parts[k]).Some? then Printable(LastValue(parts, HostIn, current))
            else LastValue(parts, HostIn, current) == current
  {
    if parts != [] {
      var init, last := parts[..|parts| - 1], parts[|parts| - 1];
      hide HostIn, Printable;
      if HostIn(last).Some? {
        ReadHost(last);
      } else {
        ReadHosts(init, current);
        assert forall k :: 0 <= k < |init| ==> init[k] == parts[k];
      }
    }
  }

  /**
   From a state with another host, an endpoint is recovered exactly when its host is printable and TLS
   need not be switched off.
   */
  lemma RecoveredExactly(e: Endpoint, s: Endpoint)
    requires e.host != s.host
    ensures Applied(e, Some(Printed(s))) == s <==> Printable(s.host) && (s.useSsl || !e.useSsl)
  {
    if Printable(s.host) {
      PrintedReadBack(e, s);
    } else {
      PrintedApplied(e, s);
      var parts := Split("host=" + s.host, ';');
      SplitPieces("host=" + s.host, ';');
      LastValueWins(e, parts);
      ReadHosts(parts, e.host);
    }
  }

  lemma {:induction false} LastValueAfter<T>(part: string, parts: seq<string>, read: string -> Option<T>, current: T)
    ensures LastValue([part] + parts, read, current) == LastValue(parts, read, Or(read(part), current))
  {
    var all := [part] + parts;
    if parts == [] {
      assert all[..0] == [];
    } else {
      assert all[|all| - 1] == parts[|parts| - 1] && all[..|all| - 1] == [part] + parts[..|parts| - 1];
      LastValueAfter(part, parts[..|parts| - 1], read, current);
    }
  }

  /** The printed host's own part sets nothing but the host. */
  lemma HostPart(text: string)
    ensures var part := "host=" + text;
            HostIn(part) == (if Trim(text) != "" then Some(Trim(text)) else None) && SslIn(part).None?
  {
    KeyWords();
    assert "host" + "=" + text == "host=" + text;
    KeyedPart("host", text, "host");
    KeyedPart("host", text, "ssl");
    KeyedPart("host", text, "tls");
    hide Trim, Lower, ValueFor;
  }

  /** No piece of a host, printed after "host=", is read as a host. */
  predicate Unread(host: string) {
    var pieces := Split(host, ';');
    Trim(pieces[0]) == "" && forall k :: 1 <= k < |pieces| ==> HostIn(pieces[k]).None?
  }

  /** From its own state an endpoint comes back exactly when its host is printable or not read, and sets no TLS. */
  lemma OwnStateExactly(s: Endpoint)
    ensures Applied(s, Some(Printed(s))) == s <==>
            (Printable(s.host) || Unread(s.host)) && (s.useSsl || !LastValue(Split(s.host, ';')[1..], SslIn, false))
  {
    var pieces, parts := Split(s.host, ';'), Split("host=" + s.host, ';');
    PrintedApplied(s, s);
    LastValueWins(s, parts);
    SplitPrefixed("host=", s.host, ';');
    SplitPieces("host=" + s.host, ';');
    hide Trim, Split, ApplyParts, ValueFor, HostIn, SslIn, Printed, Applied;
    assert parts == ["host=" + pieces[0]] + pieces[1..];
    HostPart(pieces[0]);
    LastValueAfter("host=" + pieces[0], pieces[1..], SslIn, s.useSsl);
    ReadHosts(parts, s.host);
    UnreadMeans(s.host, parts);
    if Printable(s.host) {
      HostRead(s, s.host);
    }
  }

  lemma UnreadMeans(host: string, parts: seq<string>)
    requires var pieces := Split(host, ';'); parts == ["host=" + pieces[0]] + pieces[1..]
    ensures Unread(host) <==> !exists k :: 0 <= k < |parts| && HostIn(parts[k]).Some?
  {
    var pieces := Split(host, ';');
    HostPart(pieces[0]);
    hide Trim, Split, HostIn;
    assert parts[0] == "host=" + pieces[0] && forall k :: 1 <= k < |pieces| ==> parts[k] == pieces[k];
    if Unread(host) {
      assert forall k :: 1 <= k < |parts| ==> HostIn(parts[k]).None?;
    } else if Trim(pieces[0]) == "" {
      var k :| 1 <= k < |pieces| && HostIn(pieces[k]).Some?;
      assert HostIn(parts[k]).Some?;
    }
  }
}
