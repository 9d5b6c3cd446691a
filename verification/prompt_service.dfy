/**
 * The prompt service (`tim::prompt_service`): one telnet session's shell. It
 * publishes what its shell posts to its own topic "post/<service id>", listens
 * to every "post/+" topic, and shows the posts of other sessions as coloured
 * clouds.
 */
module PromptService {
  import Text
  import TopicMatch
  import MqttClient

  const PostRoot: string := "post"
  const ConnectTopic: string := "user/connect"

  /** The quality of service `publish` and `subscribe` use by default. */
  const DefaultQos: nat := 1

  /** The largest `std::size_t` plus one. */
  const Two64: nat := 0x1_0000_0000_0000_0000

  /** "post" / the service id in decimal. */
  function OwnTopic(serviceId: nat): (t: string)
    ensures t == PostRoot + "/" + Text.ToDecimal(serviceId)
    ensures Text.ParentPath(t) == PostRoot && Text.FileName(t) == Text.ToDecimal(serviceId)
  {
    var id := Text.ToDecimal(serviceId);
    assert '/' !in id by {
      assert forall i :: 0 <= i < |id| ==> Text.IsDigit(id[i]);
    }
    Text.JoinSplits(PostRoot, id);
    Text.Join(PostRoot, id)
  }

  /** The filter the service listens to: the parent of its own topic, then "+". */
  function PostFilter(own: string): (f: string)
    ensures |f| > 0
  {
    Text.Join(Text.ParentPath(own), "+")
  }

  /** Every session listens to the same filter, "post/+". */
  lemma PostFilterOfOwnTopic(serviceId: nat)
    ensures PostFilter(OwnTopic(serviceId)) == "post/+"
  {
  }

  /** The shell's `posted` signal: publish the text to the own topic, but only while connected. */
  function OnPosted(c: MqttClient.Client, own: string, text: string): (r: MqttClient.Step)
    requires |own| > 0
    ensures c.connected ==> r.effects == [MqttClient.SendPublish(c.handle, own, text, DefaultQos, false)]
    ensures !c.connected ==> r.effects == []
    ensures r.client == c
  {
    if c.connected then MqttClient.Publish(c, own, text, DefaultQos, false) else MqttClient.Step(c, [])
  }

  /**
   * `subscribe()`: announces the session's user on "user/connect", then
   * registers the post filter, in that order.
   */
  function Subscribe(c: MqttClient.Client, own: string, userId: string, handler: nat): (r: MqttClient.Step)
    ensures r.effects == [MqttClient.SendPublish(c.handle, ConnectTopic, userId, DefaultQos, false),
                          MqttClient.SendSubscribe(c.handle, PostFilter(own), DefaultQos)]
    ensures r.client.subscribers == c.subscribers + [MqttClient.Subscriber(MqttClient.Normalise(PostFilter(own)), handler)]
    ensures r.client.handle == c.handle && r.client.connected == c.connected
  {
    var p := MqttClient.Publish(c, ConnectTopic, userId, DefaultQos, false);
    var s := MqttClient.Subscribe(p.client, PostFilter(own), handler, DefaultQos);
    MqttClient.Step(s.client, p.effects + s.effects)
  }

  /**
   * Construction: subscribes at once only if the client is already connected;
   * otherwise it waits for the `connected` signal, whose reaction is `Subscribe`.
   */
  function Start(c: MqttClient.Client, own: string, userId: string, handler: nat): (r: MqttClient.Step)
    ensures !c.connected ==> r == MqttClient.Step(c, [])
    ensures c.connected ==> r == Subscribe(c, own, userId, handler)
  {
    if c.connected then Subscribe(c, own, userId, handler) else MqttClient.Step(c, [])
  }

  /** What the service does to its session. */
  datatype SessionEffect =
    | Cloud(title: string, text: string, color: nat)  // a post shown as a cloud in terminal colour `color`
    | NewLine
    | ShellWrite(data: string)
    | CloseSession

  /**
   * The colour of a post: `n % (color_count() - 1) + 1` in `std::size_t`
   * arithmetic, so a negative `n` is first taken modulo 2^64, and a colour count
   * of 0 wraps the divisor to 2^64 - 1. A colour count of 1 divides by zero.
   * This assumes `color_count()` returns `std::size_t`; the terminal class that
   * declares it is not part of this model.
   */
  function ColorIndex(n: int, colorCount: nat): (r: nat)
    requires colorCount != 1 && colorCount < Two64
    ensures 1 <= r < Two64
    ensures 2 <= colorCount ==> r <= colorCount - 1
    ensures 0 <= n < Two64 && 2 <= colorCount ==> r == n % (colorCount - 1) + 1
  {
    var divisor := (colorCount - 1) % Two64;
    (n % Two64) % divisor + 1
  }

  /** Every colour but the default one is used: consecutive numbers cycle through 1 to count - 1. */
  lemma EveryColourReached(colorCount: nat, color: nat)
    requires 2 <= colorCount < Two64 && 1 <= color < colorCount
    ensures ColorIndex(color - 1, colorCount) == color
  {
    var d := colorCount - 1;
    ModOfSmall(d, Two64);
    ModOfSmall(color - 1, Two64);
    ModOfSmall(color - 1, d);
  }

  lemma ModOfSmall(x: int, d: int)
    requires 0 <= x < d
    ensures x % d == x
  {
  }

  /**
   * `on_post(topic, data, size)`: a post on the own topic is ignored; any other
   * is shown as a cloud with a newline before the text, coloured by the number
   * the topic's last element reads as (`tim::to_int`, a parameter here), and
   * followed by a new prompt line.
   */
  function OnPost(topic: string, payload: string, own: string, title: string,
                  toInt: string -> int, colorCount: nat): (r: seq<SessionEffect>)
    requires colorCount != 1 && colorCount < Two64
    ensures topic == own ==> r == []
    ensures topic != own ==> |r| == 2 && r[1] == NewLine
    ensures topic != own ==> r[0] == Cloud(title, "\n" + payload, ColorIndex(toInt(Text.FileName(topic)), colorCount))
    ensures topic != own && 2 <= colorCount ==> 1 <= r[0].color <= colorCount - 1
  {
    if topic == own then []
    else [Cloud(title, "\n" + payload, ColorIndex(toInt(Text.FileName(topic)), colorCount)), NewLine]
  }

  /**
   * The telnet server's `data_ready`: empty input is ignored; anything else goes
   * to the shell, and the session is closed only when that write fails.
   */
  function OnDataReady(data: string, writeOk: bool): (r: seq<SessionEffect>)
    ensures |data| == 0 ==> r == []
    ensures |data| > 0 ==> |r| >= 1 && r[0] == ShellWrite(data)
    ensures CloseSession in r <==> |data| > 0 && !writeOk
  {
    if |data| == 0 then [] else [ShellWrite(data)] + (if writeOk then [] else [CloseSession])
  }

  /**
   * A session hears its own posts back, since its topic lies under the filter it
   * listens to, and shows nothing for them.
   */
  lemma OwnPostsComeBackIgnored(serviceId: nat, payload: string, title: string, toInt: string -> int, colorCount: nat)
    requires colorCount != 1 && colorCount < Two64
    ensures TopicMatch.Match(OwnTopic(serviceId), MqttClient.Normalise(PostFilter(OwnTopic(serviceId))))
    ensures OnPost(OwnTopic(serviceId), payload, OwnTopic(serviceId), title, toInt, colorCount) == []
  {
    PostUnderFilter(serviceId);
  }

  /** The post topic of any session matches the stored post filter. */
  lemma PostUnderFilter(serviceId: nat)
    ensures TopicMatch.Match(OwnTopic(serviceId), MqttClient.Normalise(PostFilter(OwnTopic(serviceId))))
  {
    var id := Text.ToDecimal(serviceId);
    var t := OwnTopic(serviceId);
    assert MqttClient.Normalise(PostFilter(t)) == "post/" + "*" by {
      assert PostFilter(t) == "post/+";
      var n := MqttClient.Normalise("post/+");
      assert |n| == 6 && n[5] == '*';
      assert n == "post/*";
    }
    assert TopicMatch.Literal("post/");
    assert t[..5] == "post/" && t[5..] == id;
    assert '/' !in id by {
      assert forall i :: 0 <= i < |id| ==> Text.IsDigit(id[i]);
    }
    TopicMatch.PrefixStar(t, "post/");
  }

  /** Posts of every other session are shown: distinct ids give distinct topics. */
  lemma OtherPostsShown(serviceId: nat, other: nat, payload: string, title: string, toInt: string -> int, colorCount: nat)
    requires serviceId != other
    requires colorCount != 1 && colorCount < Two64
    ensures TopicMatch.Match(OwnTopic(other), MqttClient.Normalise(PostFilter(OwnTopic(serviceId))))
    ensures OnPost(OwnTopic(other), payload, OwnTopic(serviceId), title, toInt, colorCount) ==
            [Cloud(title, "\n" + payload, ColorIndex(toInt(Text.ToDecimal(other)), colorCount)), NewLine]
  {
    PostUnderFilter(other);
    Text.DecimalRoundTrip(serviceId);
    Text.DecimalRoundTrip(other);
    assert Text.FileName(OwnTopic(other)) != Text.FileName(OwnTopic(serviceId));
  }
}
