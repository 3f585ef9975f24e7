/** The Blazor notification service: six builders, each with a fixed type and
    icon, and a queue they append to. The timestamp (`DateTime.Now`) is a
    parameter. */
module Notifications {
  import opened Strings

  datatype Notification = Notification(
    kind: string,
    icon: string,
    message: string,
    details: string,
    timestamp: int)

  /** A notification as `new Notification()` leaves it. */
  function DefaultNotification(now: int): (n: Notification)
    ensures n.kind == "info" && n.icon == "\U{2139}" && n.message == "" && n.details == ""
    ensures n.timestamp == now
  {
    Notification("info", "\U{2139}", "", "", now)
  }

  /** The text "端口 ", used by the port messages. */
  const PortWord: string := "\U{7AEF}\U{53E3} "
  /** The text "进程: ", used by the process details. */
  const ProcessWord: string := "\U{8FDB}\U{7A0B}: "

  function PortStarted(port: int, processName: string, now: int): Notification {
    DefaultNotification(now).(kind := "success", icon := "\U{1F680}",
      message := PortWord + IntToString(port) + " \U{5DF2}\U{542F}\U{52A8}",
      details := ProcessWord + processName)
  }

  function PortStopped(port: int, now: int): Notification {
    DefaultNotification(now).(kind := "warning", icon := "\U{26A0}",
      message := PortWord + IntToString(port) + " \U{5DF2}\U{505C}\U{6B62}",
      details := "\U{7AEF}\U{53E3}\U{4E0D}\U{518D}\U{76D1}\U{542C}")
  }

  function TunnelCreated(port: int, url: string, now: int): Notification {
    DefaultNotification(now).(kind := "success", icon := "\U{1F310}",
      message := "\U{96A7}\U{9053}\U{5DF2}\U{521B}\U{5EFA}: " + PortWord + IntToString(port),
      details := url)
  }

  function TunnelStopped(port: int, now: int): Notification {
    DefaultNotification(now).(kind := "info", icon := "\U{1F50C}",
      message := "\U{96A7}\U{9053}\U{5DF2}\U{505C}\U{6B62}: " + PortWord + IntToString(port))
  }

  function TunnelRestarted(port: int, now: int): Notification {
    DefaultNotification(now).(kind := "success", icon := "\U{1F504}",
      message := "\U{96A7}\U{9053}\U{5DF2}\U{91CD}\U{65B0}\U{521B}\U{5EFA}: " + PortWord + IntToString(port))
  }

  function PortKilled(port: int, processName: string, now: int): Notification {
    DefaultNotification(now).(kind := "danger", icon := "\U{2715}",
      message := PortWord + IntToString(port) + " \U{5DF2}\U{7EC8}\U{6B62}",
      details := ProcessWord + processName)
  }

  /** Type and icon are fixed per builder. */
  lemma KindAndIcon(port: int, name: string, url: string, now: int)
    ensures PortStarted(port, name, now).kind == "success" && PortStarted(port, name, now).icon == "\U{1F680}"
    ensures PortStopped(port, now).kind == "warning" && PortStopped(port, now).icon == "\U{26A0}"
    ensures TunnelCreated(port, url, now).kind == "success" && TunnelCreated(port, url, now).icon == "\U{1F310}"
    ensures TunnelStopped(port, now).kind == "info" && TunnelStopped(port, now).icon == "\U{1F50C}"
    ensures TunnelRestarted(port, now).kind == "success" && TunnelRestarted(port, now).icon == "\U{1F504}"
    ensures PortKilled(port, name, now).kind == "danger" && PortKilled(port, name, now).icon == "\U{2715}"
  {
  }

  /** The created-tunnel notification carries the URL; the stopped and
      restarted ones keep the default empty details; the process
      notifications name the process. */
  lemma Details(port: int, name: string, url: string, now: int)
    ensures TunnelCreated(port, url, now).details == url
    ensures TunnelStopped(port, now).details == "" && TunnelRestarted(port, now).details == ""
    ensures Contains(PortStarted(port, name, now).details, name)
    ensures Contains(PortKilled(port, name, now).details, name)
  {
    ContainsMiddle(ProcessWord, name, "");
    assert ProcessWord + name + "" == ProcessWord + name;
  }

  /** Every message names the port in decimal. */
  lemma MessagesNamePort(port: int, name: string, url: string, now: int)
    ensures Contains(PortStarted(port, name, now).message, IntToString(port))
    ensures Contains(PortStopped(port, now).message, IntToString(port))
    ensures Contains(TunnelCreated(port, url, now).message, IntToString(port))
    ensures Contains(TunnelStopped(port, now).message, IntToString(port))
    ensures Contains(TunnelRestarted(port, now).message, IntToString(port))
    ensures Contains(PortKilled(port, name, now).message, IntToString(port))
  {
    var p := IntToString(port);
    ContainsMiddle(PortWord, p, " \U{5DF2}\U{542F}\U{52A8}");
    ContainsMiddle(PortWord, p, " \U{5DF2}\U{505C}\U{6B62}");
    ContainsMiddle(PortWord, p, " \U{5DF2}\U{7EC8}\U{6B62}");
    var created := "\U{96A7}\U{9053}\U{5DF2}\U{521B}\U{5EFA}: " + PortWord;
    var stopped := "\U{96A7}\U{9053}\U{5DF2}\U{505C}\U{6B62}: " + PortWord;
    var restarted := "\U{96A7}\U{9053}\U{5DF2}\U{91CD}\U{65B0}\U{521B}\U{5EFA}: " + PortWord;
    ContainsMiddle(created, p, "");
    ContainsMiddle(stopped, p, "");
    ContainsMiddle(restarted, p, "");
    assert created + p + "" == created + p;
    assert stopped + p + "" == stopped + p;
    assert restarted + p + "" == restarted + p;
  }

  /** Two started-port messages are equal only for the same port: the
      message determines the port within the 32-bit range. */
  lemma PortStartedMessageIdentifiesPort(p: int, q: int, name: string, now: int)
    requires Int32Min <= p <= Int32Max && Int32Min <= q <= Int32Max
    requires PortStarted(p, name, now).message == PortStarted(q, name, now).message
    ensures p == q
  {
    var tail := " \U{5DF2}\U{542F}\U{52A8}";
    var mp := PortWord + IntToString(p) + tail;
    var mq := PortWord + IntToString(q) + tail;
    assert |IntToString(p)| == |IntToString(q)|;
    assert IntToString(p) == mp[|PortWord|..|mp| - |tail|];
    assert IntToString(q) == mq[|PortWord|..|mq| - |tail|];
    ParseRendered(p);
    ParseRendered(q);
  }

  /** The notification queue; `delivered` is what `OnNotificationAdded`
      has handed to its subscribers, in order. */
  class NotificationService {
    var queue: seq<Notification>
    var delivered: seq<Notification>

    /** Subscribers have been handed exactly what was queued, in the order
        it was queued. */
    predicate Valid()
      reads this
    {
      queue == delivered
    }

    constructor ()
      ensures Valid()
      ensures queue == [] && delivered == []
    {
      queue := [];
      delivered := [];
    }

    /** Enqueue at the tail, then hand the same value to the subscribers. */
    method AddNotification(n: Notification)
      requires Valid()
      modifies this
      ensures Valid()
      ensures queue == old(queue) + [n] && delivered == old(delivered) + [n]
    {
      queue := queue + [n];
      delivered := delivered + [n];
    }

    method NotifyPortStarted(port: int, processName: string, now: int)
      requires Valid()
      modifies this
      ensures Valid()
      ensures queue == old(queue) + [PortStarted(port, processName, now)]
      ensures delivered == old(delivered) + [PortStarted(port, processName, now)]
    {
      AddNotification(PortStarted(port, processName, now));
    }

    method NotifyPortStopped(port: int, now: int)
      requires Valid()
      modifies this
      ensures Valid()
      ensures queue == old(queue) + [PortStopped(port, now)]
      ensures delivered == old(delivered) + [PortStopped(port, now)]
    {
      AddNotification(PortStopped(port, now));
    }

    method NotifyTunnelCreated(port: int, url: string, now: int)
      requires Valid()
      modifies this
      ensures Valid()
      ensures queue == old(queue) + [TunnelCreated(port, url, now)]
      ensures delivered == old(delivered) + [TunnelCreated(port, url, now)]
    {
      AddNotification(TunnelCreated(port, url, now));
    }

    method NotifyTunnelStopped(port: int, now: int)
      requires Valid()
      modifies this
      ensures Valid()
      ensures queue == old(queue) + [TunnelStopped(port, now)]
      ensures delivered == old(delivered) + [TunnelStopped(port, now)]
    {
      AddNotification(TunnelStopped(port, now));
    }

    method NotifyTunnelRestarted(port: int, now: int)
      requires Valid()
      modifies this
      ensures Valid()
      ensures queue == old(queue) + [TunnelRestarted(port, now)]
      ensures delivered == old(delivered) + [TunnelRestarted(port, now)]
    {
      AddNotification(TunnelRestarted(port, now));
    }

    method NotifyPortKilled(port: int, processName: string, now: int)
      requires Valid()
      modifies this
      ensures Valid()
      ensures queue == old(queue) + [PortKilled(port, processName, now)]
      ensures delivered == old(delivered) + [PortKilled(port, processName, now)]
    {
      AddNotification(PortKilled(port, processName, now));
    }
  }
}
