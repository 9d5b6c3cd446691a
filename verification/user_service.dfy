/**
 * The user service (`tim::user_service`): subscribes to nick and icon change
 * topics and turns each change into an UPDATE of the user table. A topic is read
 * as a path: its last element is the user id, the element before it the command.
 */
module UserService {
  import opened Wrappers
  import opened Retry
  import Text
  import TopicMatch
  import MqttClient
  import SqliteQuery
  import TclTerm
  import TclUser

  /** The filters the service registers, as written. */
  const FiltersAsWritten: seq<string> := ["set_nick/+", "set_icon/+"]

  /** The filters that reach the commands the service handles. */
  const Filters: seq<string> := ["setNick/+", "setIcon/+"]

  const NickCommand: string := "setNick"
  const IconCommand: string := "setIcon"

  const NickUpdate: string := "UPDATE user SET nick = ? WHERE id = ?"
  const IconUpdate: string := "UPDATE user SET icon = ? WHERE id = ?"

  /** The quality of service `subscribe` uses by default. */
  const DefaultQos: nat := 1

  /** Registers each filter in turn for the same handler. */
  function SubscribeAll(c: MqttClient.Client, filters: seq<string>, handler: nat): (r: MqttClient.Step)
    requires forall i :: 0 <= i < |filters| ==> |filters[i]| > 0
    ensures |r.client.subscribers| == |c.subscribers| + |filters|
    ensures r.client.subscribers[..|c.subscribers|] == c.subscribers
    ensures forall i :: 0 <= i < |filters| ==>
              r.client.subscribers[|c.subscribers| + i] == MqttClient.Subscriber(MqttClient.Normalise(filters[i]), handler)
    ensures r.client.handle == c.handle && r.client.connected == c.connected && r.client.url == c.url
    ensures |r.effects| == |filters|
    ensures forall i :: 0 <= i < |filters| ==> r.effects[i] == MqttClient.SendSubscribe(c.handle, filters[i], DefaultQos)
    decreases |filters|
  {
    if |filters| == 0 then MqttClient.Step(c, [])
    else
      var first := MqttClient.Subscribe(c, filters[0], handler, DefaultQos);
      var rest := SubscribeAll(first.client, filters[1..], handler);
      assert forall i :: 0 <= i < |filters| - 1 ==>
               rest.client.subscribers[|first.client.subscribers| + i] ==
               MqttClient.Subscriber(MqttClient.Normalise(filters[1..][i]), handler);
      assert forall i :: 0 <= i < |filters| - 1 ==>
               rest.effects[i] == MqttClient.SendSubscribe(c.handle, filters[1..][i], DefaultQos);
      MqttClient.Step(rest.client, first.effects + rest.effects)
  }

  /**
   * Construction: the service subscribes at once only if the client is already
   * connected; otherwise it waits for the `connected` signal, whose reaction is
   * `OnConnected`.
   */
  function Start(c: MqttClient.Client, handler: nat): (r: MqttClient.Step)
    ensures !c.connected ==> r == MqttClient.Step(c, [])
    ensures c.connected ==> r == OnConnected(c, handler)
  {
    if c.connected then OnConnected(c, handler) else MqttClient.Step(c, [])
  }

  /**
   * `subscribe()` as written, run at start and on every `connected` signal: it
   * sends "set_nick/+" and "set_icon/+" and stores them, in that order and with
   * the `+` turned into a star, after the entries already registered.
   */
  function OnConnected(c: MqttClient.Client, handler: nat): (r: MqttClient.Step)
    ensures r.client.subscribers ==
            c.subscribers + [MqttClient.Subscriber("set_nick/*", handler), MqttClient.Subscriber("set_icon/*", handler)]
    ensures r.effects == [MqttClient.SendSubscribe(c.handle, "set_nick/+", DefaultQos),
                          MqttClient.SendSubscribe(c.handle, "set_icon/+", DefaultQos)]
    ensures r.client.url == c.url && r.client.handle == c.handle && r.client.connected == c.connected
  {
    StoredFiltersAsWritten();
    SubscribeAll(c, FiltersAsWritten, handler)
  }

  /**
   * `subscribe()` with the filters the handler's commands need: it stores
   * "setNick/+" and "setIcon/+", with the `+` turned into a star, after the
   * entries already registered.
   */
  function OnConnectedCorrected(c: MqttClient.Client, handler: nat): (r: MqttClient.Step)
    ensures r.client.subscribers ==
            c.subscribers + [MqttClient.Subscriber("setNick/*", handler), MqttClient.Subscriber("setIcon/*", handler)]
    ensures r.effects == [MqttClient.SendSubscribe(c.handle, "setNick/+", DefaultQos),
                          MqttClient.SendSubscribe(c.handle, "setIcon/+", DefaultQos)]
    ensures r.client.url == c.url && r.client.handle == c.handle && r.client.connected == c.connected
  {
    StoredFiltersCorrected();
    SubscribeAll(c, Filters, handler)
  }

  /** What a change topic asks for. */
  datatype Change = SetNick(id: string, value: string) | SetIcon(id: string, value: string) | NoChange

  /** The command element of a topic: the file name of its parent path. */
  function Command(topic: string): (c: string)
    ensures forall k :: 0 <= k < |c| ==> c[k] != '/'
    ensures '/' !in topic ==> c == ""
  {
    Text.FileName(Text.ParentPath(topic))
  }

  /** Reads a change message: the user id is the last element, the command the one before. */
  function Decode(topic: string, payload: string): (r: Change)
    ensures Command(topic) == NickCommand <==> r.SetNick?
    ensures Command(topic) == IconCommand <==> r.SetIcon?
    ensures !r.NoChange? ==> r.id == Text.FileName(topic) && r.value == payload
  {
    var command := Command(topic);
    if command == NickCommand then SetNick(Text.FileName(topic), payload)
    else if command == IconCommand then SetIcon(Text.FileName(topic), payload)
    else NoChange
  }

  /** The result of handling one change message. */
  datatype Handled =
    | Ignored                                                            // neither command
    | Halted                                                             // the UPDATE did not prepare: Fatal
    | Updated(sql: string, bindings: map<int, SqliteQuery.Value>, ok: bool)  // the UPDATE ran, successfully or not

  /**
   * `on_change(topic, data, size)`: for "setNick" or "setIcon", prepares the
   * matching UPDATE (a failure is Fatal), binds the new value to 1 and the id to
   * 2, binds the value once more to index 3 (which the two-parameter statement
   * rejects; the failure is ignored) and executes it. The engine's answers to
   * prepare and then exec follow each other in `answer`.
   */
  function OnChange(topic: string, payload: string, answer: Answers, tries: nat): (r: Handled)
    ensures r.Ignored? <==> Decode(topic, payload).NoChange?
    ensures r.Updated? && Decode(topic, payload).SetNick? ==> r.sql == NickUpdate
    ensures r.Updated? && Decode(topic, payload).SetIcon? ==> r.sql == IconUpdate
    ensures r.Updated? ==> r.bindings == map[1 := SqliteQuery.TextValue(payload), 2 := SqliteQuery.TextValue(Text.FileName(topic))]
    ensures !Decode(topic, payload).NoChange? && 1 <= tries && answer(0) == Ok ==> r.Updated?
    ensures !Decode(topic, payload).NoChange? && 1 <= tries && answer(0) != Ok && answer(0) != Busy ==> r.Halted?
    ensures Decode(topic, payload).SetNick? ==>
              (r.Halted? <==> !SqliteQuery.Prepare(SqliteQuery.NewQuery(NickUpdate, [None, None]), answer, tries).ok)
    ensures Decode(topic, payload).SetIcon? ==>
              (r.Halted? <==> !SqliteQuery.Prepare(SqliteQuery.NewQuery(IconUpdate, [None, None]), answer, tries).ok)
    ensures r.Updated? ==>
              var p := SqliteQuery.Prepare(SqliteQuery.NewQuery(r.sql, [None, None]), answer, tries);
              p.ok && (r.ok <==> SqliteQuery.Exec(p.query, Shift(answer, p.attempts), tries).ok)
    ensures !Decode(topic, payload).NoChange? && 1 <= tries && answer(0) == Ok && answer(1) == Done ==> r.Updated? && r.ok
    ensures (!Decode(topic, payload).NoChange? && 1 <= tries && answer(0) == Ok &&
             answer(1) != Row && answer(1) != Done && answer(1) != Busy) ==> r.Updated? && !r.ok
  {
    var change := Decode(topic, payload);
    if change.NoChange? then Ignored
    else
      var sql := if change.SetNick? then NickUpdate else IconUpdate;
      var q := SqliteQuery.NewQuery(sql, [None, None]);
      var p := SqliteQuery.Prepare(q, answer, tries);
      if !p.ok then Halted
      else
        var b1 := SqliteQuery.Bind(p.query, 1, SqliteQuery.TextValue(payload));
        var b2 := SqliteQuery.Bind(b1.query, 2, SqliteQuery.TextValue(change.id));
        var b3 := SqliteQuery.Bind(b2.query, 3, SqliteQuery.TextValue(payload));
        var e := SqliteQuery.Exec(b3.query, Shift(answer, p.attempts), tries);
        Updated(sql, b3.query.bindings, e.ok)
  }

  /** A topic one element under a prefix without separators decodes to that prefix as command. */
  lemma CommandUnderPrefix(prefix: string, rest: string)
    requires 1 <= |prefix| && '/' !in prefix && '/' !in rest
    ensures Command(prefix + "/" + rest) == prefix
    ensures Text.FileName(prefix + "/" + rest) == rest
  {
    Text.JoinSplits(prefix, rest);
    Text.SplitPath(prefix);
  }

  /** A filter "prefix/+" is stored with its last character rewritten to a star. */
  lemma StoredFilter(prefix: string)
    requires '+' !in prefix
    ensures MqttClient.Normalise(prefix + "/+") == prefix + "/" + "*"
  {
    var f := prefix + "/+";
    var r := MqttClient.Normalise(f);
    assert forall i :: 0 <= i < |prefix| ==> f[i] == prefix[i];
    assert r == prefix + "/" + "*";
  }

  /** The filters as written, as the client stores them. */
  lemma StoredFiltersAsWritten()
    ensures MqttClient.Normalise(FiltersAsWritten[0]) == "set_nick/*"
    ensures MqttClient.Normalise(FiltersAsWritten[1]) == "set_icon/*"
  {
    StoredFilterAt(FiltersAsWritten, 0, "set_nick");
    StoredFilterAt(FiltersAsWritten, 1, "set_icon");
  }

  lemma StoredFilterAt(filters: seq<string>, i: nat, prefix: string)
    requires i < |filters| && filters[i] == prefix + "/+" && '+' !in prefix
    ensures MqttClient.Normalise(filters[i]) == prefix + "/*"
  {
    StoredFilter(prefix);
    assert prefix + "/" + "*" == prefix + "/*";
  }

  /** The corrected filters, as the client stores them. */
  lemma StoredFiltersCorrected()
    ensures MqttClient.Normalise(Filters[0]) == "setNick/*"
    ensures MqttClient.Normalise(Filters[1]) == "setIcon/*"
  {
    StoredFilterAt(Filters, 0, "setNick");
    StoredFilterAt(Filters, 1, "setIcon");
  }

  /**
   * A stored filter, the prefix followed by "/" and "*", with a plain prefix, matches exactly the topics one
   * element below the prefix, and such a topic decodes to the prefix as command
   * and that element as id.
   */
  lemma StarFilter(topic: string, prefix: string, f: string)
    requires 1 <= |prefix| && '/' !in prefix && TopicMatch.Literal(prefix)
    requires f == prefix + "/" + "*"
    ensures TopicMatch.Match(topic, f) <==>
              Text.StartsWith(topic, prefix + "/") && '/' !in topic[|prefix| + 1..]
    ensures TopicMatch.Match(topic, f) ==>
              Command(topic) == prefix && Text.FileName(topic) == topic[|prefix| + 1..]
  {
    var head := prefix + "/";
    TopicMatch.PrefixStar(topic, head);
    if TopicMatch.Match(topic, f) {
      var rest := topic[|head|..];
      assert topic == prefix + "/" + rest;
      CommandUnderPrefix(prefix, rest);
    }
  }

  /** A topic that differs from the prefix at some position does not match the star filter under it. */
  lemma StarFilterMisses(topic: string, prefix: string, f: string, k: nat)
    requires 1 <= |prefix| && '/' !in prefix && TopicMatch.Literal(prefix)
    requires f == prefix + "/" + "*"
    requires k < |prefix| && k < |topic| && topic[k] != prefix[k]
    ensures !TopicMatch.Match(topic, f)
  {
    StarFilter(topic, prefix, f);
    var head := prefix + "/";
    assert head[k] == prefix[k];
    assert |head| <= |topic| ==> topic[..|head|][k] == topic[k];
  }

  /** A topic under the i-th as-written filter decodes to "set_nick" or "set_icon". */
  lemma AsWrittenCommand(topic: string, i: nat)
    requires i < |FiltersAsWritten| && TopicMatch.Match(topic, MqttClient.Normalise(FiltersAsWritten[i]))
    ensures Command(topic) == (if i == 0 then "set_nick" else "set_icon")
  {
    StoredFiltersAsWritten();
    if i == 0 {
      assert "set_nick/*" == "set_nick" + "/" + "*";
      StarFilter(topic, "set_nick", "set_nick/*");
    } else {
      assert "set_icon/*" == "set_icon" + "/" + "*";
      StarFilter(topic, "set_icon", "set_icon/*");
    }
  }

  lemma UnknownCommandIgnored(topic: string, payload: string, answer: Answers, tries: nat)
    requires Command(topic) != NickCommand && Command(topic) != IconCommand
    ensures OnChange(topic, payload, answer, tries).Ignored?
  {
  }

  /**
   * As written, no message the service is subscribed to ever changes anything:
   * every topic matching "set_nick/+" or "set_icon/+" decodes to the command
   * "set_nick" or "set_icon", which neither branch handles.
   */
  lemma AsWrittenFiltersNeverUpdate(topic: string, payload: string, answer: Answers, tries: nat)
    requires exists i :: 0 <= i < |FiltersAsWritten| && TopicMatch.Match(topic, MqttClient.Normalise(FiltersAsWritten[i]))
    ensures OnChange(topic, payload, answer, tries).Ignored?
  {
    var i :| 0 <= i < |FiltersAsWritten| && TopicMatch.Match(topic, MqttClient.Normalise(FiltersAsWritten[i]));
    AsWrittenCommand(topic, i);
    UnknownCommandIgnored(topic, payload, answer, tries);
  }

  /** A handled command whose UPDATE prepares runs it with the value and the id bound. */
  lemma KnownCommandUpdates(topic: string, payload: string, answer: Answers, tries: nat)
    requires Command(topic) == NickCommand || Command(topic) == IconCommand
    requires 1 <= tries && answer(0) == Ok
    ensures var r := OnChange(topic, payload, answer, tries);
            r.Updated? && r.sql == (if Command(topic) == NickCommand then NickUpdate else IconUpdate) &&
            r.bindings == map[1 := SqliteQuery.TextValue(payload), 2 := SqliteQuery.TextValue(Text.FileName(topic))]
  {
  }

  /** The topic of `puts nick:` lies under "setNick/+" and decodes to the terminal's id. */
  lemma NickTopicDecodes(terminalId: string)
    requires 1 <= |terminalId| && '/' !in terminalId
    ensures TopicMatch.Match(TclTerm.NickTopic(terminalId), "setNick/*")
    ensures Command(TclTerm.NickTopic(terminalId)) == NickCommand
    ensures Text.FileName(TclTerm.NickTopic(terminalId)) == terminalId
  {
    var nick := TclTerm.NickTopic(terminalId);
    assert nick == "setNick" + "/" + terminalId;
    assert "setNick/*" == "setNick" + "/" + "*";
    assert nick[..8] == "setNick/" && nick[8..] == terminalId;
    StarFilter(nick, "setNick", "setNick/*");
  }

  /** The topic of `puts icon:` lies under "setIcon/+" and decodes to the terminal's id. */
  lemma IconTopicDecodes(terminalId: string)
    requires 1 <= |terminalId| && '/' !in terminalId
    ensures TopicMatch.Match(TclTerm.IconTopic(terminalId), "setIcon/*")
    ensures Command(TclTerm.IconTopic(terminalId)) == IconCommand
    ensures Text.FileName(TclTerm.IconTopic(terminalId)) == terminalId
  {
    var icon := TclTerm.IconTopic(terminalId);
    assert icon == "setIcon" + "/" + terminalId;
    assert "setIcon/*" == "setIcon" + "/" + "*";
    assert icon[..8] == "setIcon/" && icon[8..] == terminalId;
    StarFilter(icon, "setIcon", "setIcon/*");
  }

  /** The topic of `puts nick:` lies under neither filter as written. */
  lemma NickTopicMissesAsWritten(terminalId: string)
    ensures !TopicMatch.Match(TclTerm.NickTopic(terminalId), "set_nick/*")
    ensures !TopicMatch.Match(TclTerm.NickTopic(terminalId), "set_icon/*")
  {
    var nick := TclTerm.NickTopic(terminalId);
    assert nick[3] == 'N';
    StarFilterMisses(nick, "set_nick", "set_nick/*", 3);
    StarFilterMisses(nick, "set_icon", "set_icon/*", 3);
  }

  /**
   * With the corrected filters, the nick a terminal publishes with
   * `puts nick:<value>` reaches the service and becomes the UPDATE of that
   * terminal's nick, once the statement prepares.
   */
  lemma TerminalNickReachesDatabase(terminalId: string, value: string, answer: Answers, tries: nat)
    requires 1 <= |terminalId| && '/' !in terminalId
    requires 1 <= tries && answer(0) == Ok
    ensures TopicMatch.Match(TclTerm.NickTopic(terminalId), MqttClient.Normalise(Filters[0]))
    ensures var r := OnChange(TclTerm.NickTopic(terminalId), value, answer, tries);
            r.Updated? && r.sql == NickUpdate &&
            r.bindings == map[1 := SqliteQuery.TextValue(value), 2 := SqliteQuery.TextValue(terminalId)]
  {
    NickTopicDecodes(terminalId);
    StoredFiltersCorrected();
    KnownCommandUpdates(TclTerm.NickTopic(terminalId), value, answer, tries);
  }

  /** Likewise, `puts icon:<value>` becomes the UPDATE of that terminal's icon. */
  lemma TerminalIconReachesDatabase(terminalId: string, value: string, answer: Answers, tries: nat)
    requires 1 <= |terminalId| && '/' !in terminalId
    requires 1 <= tries && answer(0) == Ok
    ensures TopicMatch.Match(TclTerm.IconTopic(terminalId), MqttClient.Normalise(Filters[1]))
    ensures var r := OnChange(TclTerm.IconTopic(terminalId), value, answer, tries);
            r.Updated? && r.sql == IconUpdate &&
            r.bindings == map[1 := SqliteQuery.TextValue(value), 2 := SqliteQuery.TextValue(terminalId)]
  {
    IconTopicDecodes(terminalId);
    StoredFiltersCorrected();
    KnownCommandUpdates(TclTerm.IconTopic(terminalId), value, answer, tries);
  }

  /**
   * Whatever the registration as written delivers to the service's handler is
   * ignored: no message reaching it through those two entries changes the
   * database.
   */
  lemma AsWrittenRegistrationIgnoresAll(c: MqttClient.Client, handler: nat, topic: string, payload: string, answer: Answers, tries: nat)
    ensures var added := OnConnected(c, handler).client.subscribers[|c.subscribers|..];
            MqttClient.Dispatch(added, topic, payload) != [] ==> OnChange(topic, payload, answer, tries).Ignored?
  {
    var added := OnConnected(c, handler).client.subscribers[|c.subscribers|..];
    assert added == [MqttClient.Subscriber("set_nick/*", handler), MqttClient.Subscriber("set_icon/*", handler)];
    var d := MqttClient.Dispatch(added, topic, payload);
    if d != [] {
      assert MqttClient.Deliver(handler, topic, payload) in d by {
        assert d[0].Deliver? && d[0].topic == topic && d[0].payload == payload;
        assert d[0].handler == handler;
      }
      var sub :| sub in added && sub.handler == handler && TopicMatch.Match(topic, sub.filter);
      StoredFiltersAsWritten();
      if sub.filter == "set_nick/*" {
        assert TopicMatch.Match(topic, MqttClient.Normalise(FiltersAsWritten[0]));
      } else {
        assert TopicMatch.Match(topic, MqttClient.Normalise(FiltersAsWritten[1]));
      }
      AsWrittenFiltersNeverUpdate(topic, payload, answer, tries);
    }
  }

  /**
   * With the corrected registration, the topic of `puts nick:` reaches the
   * service's handler exactly once.
   */
  lemma CorrectedRegistrationDeliversNickOnce(c: MqttClient.Client, handler: nat, terminalId: string, value: string)
    requires 1 <= |terminalId| && '/' !in terminalId
    ensures var added := OnConnectedCorrected(c, handler).client.subscribers[|c.subscribers|..];
            MqttClient.Dispatch(added, TclTerm.NickTopic(terminalId), value) ==
            [MqttClient.Deliver(handler, TclTerm.NickTopic(terminalId), value)]
  {
    var nick := TclTerm.NickTopic(terminalId);
    var a := MqttClient.Subscriber("setNick/*", handler);
    var b := MqttClient.Subscriber("setIcon/*", handler);
    assert OnConnectedCorrected(c, handler).client.subscribers[|c.subscribers|..] == [a] + [b];
    NickTopicDecodes(terminalId);
    assert nick[3] == 'N';
    StarFilterMisses(nick, "setIcon", "setIcon/*", 3);
    MqttClient.DispatchAppend([a], [b], nick, value);
    MqttClient.DispatchOne(a, nick, value);
    MqttClient.DispatchOne(b, nick, value);
  }

  /**
   * The topic `setnick` of the Tcl shell publishes to, "user/setnick/<user id>",
   * decodes to the command "setnick", which the handler ignores.
   */
  lemma UserSetNickTopicIgnored(userId: string, value: string, answer: Answers, tries: nat)
    requires '/' !in userId
    ensures Command(TclUser.SetNickTopic(userId)) == "setnick"
    ensures OnChange(TclUser.SetNickTopic(userId), value, answer, tries).Ignored?
  {
    TclUser.SetNickTopicSplits(userId);
    UserSetNickCommand();
    UnknownCommandIgnored(TclUser.SetNickTopic(userId), value, answer, tries);
  }

  /** The last element of "user/setnick" is "setnick". */
  lemma UserSetNickCommand()
    ensures Text.FileName("user/setnick") == "setnick"
  {
    Text.JoinSplits("user", "setnick");
    assert Text.Join("user", "setnick") == "user/setnick";
  }

  /** That topic lies under neither the filters as written nor the corrected ones. */
  lemma UserSetNickTopicMissesFilters(userId: string)
    requires '/' !in userId
    ensures !TopicMatch.Match(TclUser.SetNickTopic(userId), "setNick/*")
    ensures !TopicMatch.Match(TclUser.SetNickTopic(userId), "set_nick/*")
  {
    var t := TclUser.SetNickTopic(userId);
    assert |userId| == 0 || userId[0] != '/' by {
      assert |userId| > 0 ==> userId[0] in userId;
    }
    assert t == "user/setnick" + "/" + userId;
    assert t[0] == 'u';
    StarFilterMisses(t, "setNick", "setNick/*", 0);
    StarFilterMisses(t, "set_nick", "set_nick/*", 0);
  }

  /** The filters as written do not even match the topic `puts nick:` publishes to. */
  lemma AsWrittenFiltersMissTerminalNick(terminalId: string)
    ensures !TopicMatch.Match(TclTerm.NickTopic(terminalId), MqttClient.Normalise(FiltersAsWritten[0]))
    ensures !TopicMatch.Match(TclTerm.NickTopic(terminalId), MqttClient.Normalise(FiltersAsWritten[1]))
  {
    NickTopicMissesAsWritten(terminalId);
    StoredFiltersAsWritten();
  }
}
