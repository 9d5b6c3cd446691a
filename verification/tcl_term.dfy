/**
 * The terminal commands of the Tcl shell: `clear`, `puts` and `palette256`.
 * A command's run is its error (the message it sets on the interpreter, if any)
 * and the effects it has on the terminal and the broker, in order.
 */
module TclTerm {
  import opened Wrappers
  import Text

  /** Why a command refused its arguments. */
  datatype CommandError = NoArgumentsExpected | NoNewlineExpected | PutsUsage | ExpectedNick | ExpectedIcon

  datatype Effect =
    | Write(text: string)                      // bytes written to the terminal's protocol
    | Publish(topic: string, payload: string)  // a message published through the MQTT client
    | ClearScreen
    | PrintIndex(n: nat)                       // the index printed with "%3zu"
    | Swatch(n: nat)                           // two spaces on background colour n

  datatype Outcome = Outcome(error: Option<CommandError>, effects: seq<Effect>)

  const NickPrefix: string := "nick:"
  const IconPrefix: string := "icon:"
  const NoNewline: string := "-nonewline"

  /** What `puts` echoes before publishing a nick (followed by the nick and a newline) or an icon. */
  const NickEcho: string := "[setNick] "
  const IconEcho: string := "[setIcon] <image data>\n"

  /** The topic a terminal publishes a nick change to. */
  function NickTopic(terminalId: string): (t: string)
    ensures Text.StartsWith(t, "setNick/") && t[|"setNick/"|..] == terminalId
  {
    "setNick/" + terminalId
  }

  /** The topic a terminal publishes an icon change to. */
  function IconTopic(terminalId: string): (t: string)
    ensures Text.StartsWith(t, "setIcon/") && t[|"setIcon/"|..] == terminalId
  {
    "setIcon/" + terminalId
  }

  /** The published messages among some effects. */
  function Published(effects: seq<Effect>): (r: seq<Effect>)
    ensures forall k :: 0 <= k < |r| ==> r[k].Publish? && r[k] in effects
    decreases |effects|
  {
    if |effects| == 0 then []
    else (if effects[0].Publish? then [effects[0]] else []) + Published(effects[1..])
  }

  /** The text written to the terminal by some effects. */
  function Output(effects: seq<Effect>): string
    decreases |effects|
  {
    if |effects| == 0 then ""
    else (if effects[0].Write? then effects[0].text else "") + Output(effects[1..])
  }

  lemma {:induction false} PublishedAppend(a: seq<Effect>, b: seq<Effect>)
    ensures Published(a + b) == Published(a) + Published(b)
    ensures Output(a + b) == Output(a) + Output(b)
    decreases |a|
  {
    if |a| == 0 {
      assert a + b == b;
    } else {
      var head := a[0];
      assert (a + b)[0] == head;
      assert (a + b)[1..] == a[1..] + b;
      PublishedAppend(a[1..], b);
      var p: seq<Effect> := if head.Publish? then [head] else [];
      var o: string := if head.Write? then head.text else "";
      assert Published(a + b) == p + Published(a[1..] + b);
      assert Published(a) == p + Published(a[1..]);
      assert Output(a + b) == o + Output(a[1..] + b);
      assert Output(a) == o + Output(a[1..]);
    }
  }

  /** `clear`: clears the terminal; any argument is refused. */
  function Clear(args: seq<string>): (r: Outcome)
    ensures r.error.None? <==> |args| == 0
    ensures |args| == 0 ==> r.effects == [ClearScreen]
    ensures |args| > 0 ==> r == Outcome(Some(NoArgumentsExpected), [])
  {
    if |args| > 0 then Outcome(Some(NoArgumentsExpected), []) else Outcome(None, [ClearScreen])
  }

  /**
   * What `puts` does with its text: "nick:" and "icon:" texts publish the rest
   * of the text to the terminal's topics, with an echo when `echo` is set; any
   * other text is written, followed by a newline when `echo` is set.
   */
  function Route(text: string, terminalId: string, echo: bool): (r: seq<Effect>)
    ensures Text.StartsWith(text, NickPrefix) ==>
              Published(r) == [Publish(NickTopic(terminalId), text[|NickPrefix|..])]
    ensures !Text.StartsWith(text, NickPrefix) && Text.StartsWith(text, IconPrefix) ==>
              Published(r) == [Publish(IconTopic(terminalId), text[|IconPrefix|..])]
    ensures !Text.StartsWith(text, NickPrefix) && !Text.StartsWith(text, IconPrefix) ==>
              Published(r) == [] && Output(r) == (if echo then text + "\n" else text)
    ensures !echo && (Text.StartsWith(text, NickPrefix) || Text.StartsWith(text, IconPrefix)) ==> Output(r) == ""
    ensures echo && Text.StartsWith(text, NickPrefix) ==>
              r == [Write(NickEcho + text[|NickPrefix|..] + "\n"), Publish(NickTopic(terminalId), text[|NickPrefix|..])]
    ensures echo && !Text.StartsWith(text, NickPrefix) && Text.StartsWith(text, IconPrefix) ==>
              r == [Write(IconEcho), Publish(IconTopic(terminalId), text[|IconPrefix|..])]
    ensures !echo && (Text.StartsWith(text, NickPrefix) || Text.StartsWith(text, IconPrefix)) ==> r == Published(r)
  {
    if Text.StartsWith(text, NickPrefix) then
      var nick := text[|NickPrefix|..];
      PublishedAppend(if echo then [Write(NickEcho + nick + "\n")] else [], [Publish(NickTopic(terminalId), nick)]);
      (if echo then [Write(NickEcho + nick + "\n")] else []) + [Publish(NickTopic(terminalId), nick)]
    else if Text.StartsWith(text, IconPrefix) then
      var icon := text[|IconPrefix|..];
      PublishedAppend(if echo then [Write(IconEcho)] else [], [Publish(IconTopic(terminalId), icon)]);
      (if echo then [Write(IconEcho)] else []) + [Publish(IconTopic(terminalId), icon)]
    else if echo then
      PublishedAppend([Write(text)], [Write("\n")]);
      [Write(text)] + [Write("\n")]
    else [Write(text)]
  }

  /**
   * `puts ?-nonewline? string`: one argument is routed with echo and newline, two
   * arguments need "-nonewline" first and route the second without them, and any
   * other count is a usage error. A refused call has no effect.
   */
  function Puts(args: seq<string>, terminalId: string): (r: Outcome)
    ensures r.error.None? <==> |args| == 1 || (|args| == 2 && args[0] == NoNewline)
    ensures r.error.Some? ==> r.effects == []
    ensures |args| == 2 && args[0] != NoNewline ==> r.error == Some(NoNewlineExpected)
    ensures (|args| == 0 || 2 < |args|) ==> r.error == Some(PutsUsage)
    ensures |args| == 1 ==> r.effects == Route(args[0], terminalId, true)
    ensures |args| == 2 && args[0] == NoNewline ==> r.effects == Route(args[1], terminalId, false)
  {
    if |args| == 1 then Outcome(None, Route(args[0], terminalId, true))
    else if |args| == 2 then
      if args[0] != NoNewline then Outcome(Some(NoNewlineExpected), [])
      else Outcome(None, Route(args[1], terminalId, false))
    else Outcome(Some(PutsUsage), [])
  }

  /**
   * "-nonewline" changes only what is written, never what is published: the same
   * text publishes the same messages either way, and plain text loses exactly its
   * trailing newline.
   */
  lemma NoNewlinePublishesTheSame(text: string, terminalId: string)
    ensures Published(Puts([text], terminalId).effects) == Published(Puts([NoNewline, text], terminalId).effects)
    ensures !Text.StartsWith(text, NickPrefix) && !Text.StartsWith(text, IconPrefix) ==>
              Output(Puts([text], terminalId).effects) == Output(Puts([NoNewline, text], terminalId).effects) + "\n"
  {
  }

  /** The items `palette256` prints for colour `c`: its number, its swatch, a space. */
  function Item(c: nat): seq<Effect> {
    [PrintIndex(c), Swatch(c), Write(" ")]
  }

  /** The palette for colours 0 to `n`, ten to a line. */
  function Palette(n: nat): (r: seq<Effect>)
    decreases n
  {
    if n == 0 then Item(0)
    else Palette(n - 1) + (if n % 10 == 0 then [Write("\n")] else []) + Item(n)
  }

  /** Where the items of colour `c` start in the palette. */
  function Position(c: nat): nat {
    3 * c + c / 10
  }

  /** Each colour's items start three places after the previous ones, one more after a newline. */
  lemma PositionStep(c: nat)
    requires 0 < c
    ensures Position(c) == Position(c - 1) + 3 + (if c % 10 == 0 then 1 else 0)
  {
  }

  lemma PositionMonotone(c: nat, m: nat)
    requires c <= m
    ensures Position(c) <= Position(m)
  {
    assert c / 10 <= m / 10;
  }

  /**
   * Layout of the palette: it visits every colour from 0 to `n` inclusive in
   * order, each item at `Position(c)`, with a newline just before every nonzero
   * multiple of ten and nowhere else.
   */
  lemma {:induction false} PaletteLayout(n: nat)
    ensures |Palette(n)| == Position(n) + 3
    ensures forall c :: 0 <= c <= n ==> Palette(n)[Position(c)..Position(c) + 3] == Item(c)
    ensures forall c :: 0 < c <= n && c % 10 == 0 ==> Palette(n)[Position(c) - 1] == Write("\n")
    ensures forall c :: 0 < c <= n && c % 10 != 0 ==> Position(c) == Position(c - 1) + 3
    decreases n
  {
    if n > 0 {
      PaletteLayout(n - 1);
      var p := Palette(n - 1);
      var sep: seq<Effect> := if n % 10 == 0 then [Write("\n")] else [];
      assert Palette(n) == p + sep + Item(n);
      PositionStep(n);
      assert Position(n) == |p| + |sep|;
      forall c | 0 <= c <= n
        ensures Palette(n)[Position(c)..Position(c) + 3] == Item(c)
      {
        if c < n {
          PositionMonotone(c, n - 1);
          assert Palette(n)[Position(c)..Position(c) + 3] == p[Position(c)..Position(c) + 3];
        }
      }
      forall c | 0 < c <= n && c % 10 == 0
        ensures Palette(n)[Position(c) - 1] == Write("\n")
      {
        if c < n {
          PositionMonotone(c, n - 1);
        }
      }
      forall c | 0 < c <= n && c % 10 != 0
        ensures Position(c) == Position(c - 1) + 3
      {
        PositionStep(c);
      }
    }
  }

  /**
   * `palette256`: refuses any argument; otherwise prints colours 0 to
   * `colorCount` inclusive, ten to a line.
   */
  method Palette256(args: seq<string>, colorCount: nat) returns (r: Outcome)
    ensures r.error.None? <==> |args| == 0
    ensures |args| > 0 ==> r == Outcome(Some(NoArgumentsExpected), [])
    ensures |args| == 0 ==> r.effects == Palette(colorCount)
  {
    if |args| > 0 {
      return Outcome(Some(NoArgumentsExpected), []);
    }
    var out: seq<Effect> := [];
    var c: nat := 0;
    while c <= colorCount
      invariant c <= colorCount + 1
      invariant c == 0 ==> out == []
      invariant 0 < c ==> out == Palette(c - 1)
      decreases colorCount + 1 - c
    {
      if c > 0 && c % 10 == 0 {
        out := out + [Write("\n")];
      }
      out := out + [PrintIndex(c), Swatch(c), Write(" ")];
      c := c + 1;
    }
    return Outcome(None, out);
  }
}
