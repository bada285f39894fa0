/**
 * Checkpoint windows of the ZK bridge service. Deposits collect in a window; closing it
 * fixes a Merkle root, then the closing call waits for the chain, and finally opens the next
 * window. Windows are objects shared by the map, the current reference and timer callbacks;
 * here they are named by their id. `armed` is the event loop's set of scheduled timers (each
 * window schedules one), `timer` the one handle the service remembers, `closing` the closing
 * calls that are waiting, `starting` the start calls that are.
 */
module Checkpoints {
  import opened Bytes
  import opened Options
  import opened MerkleTree
  import opened DepositEncoding
  import opened Base58
  import Messages

  /** `recipient` is the decoded hex field; None when decoding throws. */
  datatype Event = Event(sender: string, recipient: Option<bytes>, slot: int, eventIndex: int, amount: int, nonce: int)

  datatype Window = Window(events: seq<Event>, messageIds: seq<Digest>, closed: bool,
                           merkleRoot: Option<Digest>, checkpointId: Option<nat>)

  datatype Config = Config(h: Hash, programId: string, maxEventsPerCheckpoint: int)

  datatype Service = Service(windows: map<nat, Window>, current: Option<nat>, nextId: nat, timer: Option<nat>,
                             armed: set<nat>, closing: set<nat>, starting: nat, running: bool)

  const NEW_WINDOW: Window := Window([], [], false, None, None)

  function MaxEvents(cfg: Config): int {
    if cfg.maxEventsPerCheckpoint == 0 then 100 else cfg.maxEventsPerCheckpoint
  }

  /** Fields of a deposit's message; None when an address does not decode. */
  function EventFields(cfg: Config, e: Event): Option<Fields> {
    if !ValidText(e.sender) || e.recipient.None? || !ValidText(cfg.programId) then None
    else Some(Fields(1, 2, KeepFirst(Full(cfg.programId), 32), e.slot, e.eventIndex, KeepFirst(Full(e.sender), 32),
                     e.recipient.value, e.amount, e.nonce, Zeros(32)))
  }

  function MessageId(cfg: Config, e: Event): Option<Digest> {
    match EventFields(cfg, e)
    case None => None
    case Some(f) => Some(cfg.h(Preimage(Messages.Utf8(DOMAIN_SEP), FitFields(f))))
  }

  function RootOf(cfg: Config, ids: seq<Digest>): Digest { Node(cfg.h, ids, VALIDATOR_PAD, TREE_DEPTH, 0) }

  // --------------------------------------------------------------------------
  // Steps
  // --------------------------------------------------------------------------

  function InitialService(): Service { Service(map[], None, 0, None, {}, {}, 0, false) }

  function OpenNew(s: Service): Service {
    s.(windows := s.windows[s.nextId := NEW_WINDOW], current := Some(s.nextId), nextId := s.nextId + 1,
       timer := Some(s.nextId), armed := s.armed + {s.nextId})
  }

  /** `clearTimeout` on the remembered handle, whichever window that is. */
  function ClearTimer(s: Service): Service {
    s.(timer := None, armed := s.armed - if s.timer.Some? then {s.timer.value} else {})
  }

  function Put(s: Service, w: nat, window: Window): Service { s.(windows := s.windows[w := window]) }

  /** Up to the first wait of `closeWindow`. */
  function CloseStart(s: Service, cfg: Config, w: nat): Service
    requires w in s.windows
  {
    var window := s.windows[w];
    if window.closed then s
    else if window.events == [] then OpenNew(ClearTimer(Put(s, w, window.(closed := true))))
    else
      var done := window.(closed := true, merkleRoot := Some(RootOf(cfg, window.messageIds)));
      ClearTimer(Put(s, w, done)).(closing := s.closing + {w})
  }

  /** The rest of `closeWindow`, at any later time. */
  function CloseFinish(s: Service, w: nat): Service {
    var s1 := s.(closing := s.closing - {w});
    if s.running then OpenNew(s1) else s1
  }

  /** The window a deposit would go to. */
  function Ready(s: Service): Service {
    if s.current.None? || s.current.value !in s.windows || s.windows[s.current.value].closed then OpenNew(s) else s
  }

  function Push(window: Window, e: Event, id: Digest): Window {
    window.(events := window.events + [e], messageIds := window.messageIds + [id])
  }

  function AddDeposit(s: Service, cfg: Config, e: Event): Service {
    if !s.running then s
    else
      var s1 := Ready(s);
      var w := s1.current.value;
      match MessageId(cfg, e)
      case None => s1
      case Some(id) =>
        var s2 := Put(s1, w, Push(s1.windows[w], e, id));
        if |s2.windows[w].events| >= MaxEvents(cfg) then CloseStart(s2, cfg, w) else s2
  }

  /** The timer callback of window w. */
  function TimerFires(s: Service, cfg: Config, w: nat): Service
    requires w in s.windows
  {
    var s1 := s.(armed := s.armed - {w});
    if s.windows[w].events != [] then CloseStart(s1, cfg, w) else OpenNew(s1)
  }

  function Begin(s: Service): Service { s.(running := true, starting := s.starting + 1) }

  function BeginDone(s: Service): Service
    requires s.starting > 0
  {
    OpenNew(s.(starting := s.starting - 1))
  }

  function Halt(s: Service): Service { ClearTimer(s).(running := false) }

  /** A poll finds the window's root activated on chain. */
  function Activate(s: Service, w: nat, checkpointId: nat): Service
    requires w in s.windows
  {
    Put(s, w, s.windows[w].(checkpointId := Some(checkpointId)))
  }

  // --------------------------------------------------------------------------
  // The service
  // --------------------------------------------------------------------------

  class ZkBridgeService {
    const config: Config
    var currentWindow: Option<nat>
    var windowTimer: Option<nat>
    var checkpointWindows: map<nat, Window>
    var nextWindowId: nat
    var running: bool
    /** Scheduled timers and waiting calls: kept by the runtime, not by the service. */
    ghost var armed: set<nat>
    ghost var closing: set<nat>
    ghost var starting: nat

    ghost function State(): Service
      reads this
    {
      Service(checkpointWindows, currentWindow, nextWindowId, windowTimer, armed, closing, starting, running)
    }

    constructor (config: Config)
      ensures State() == InitialService() && this.config == config
    {
      this.config := config;
      currentWindow, windowTimer, checkpointWindows, nextWindowId, running := None, None, map[], 0, false;
      armed, closing, starting := {}, {}, 0;
    }

    method Start()
      modifies this
      ensures State() == Begin(old(State()))
    {
      running := true;
      starting := starting + 1;
    }

    /** Start again once the recovery scan is over. */
    method StartDone()
      requires starting > 0
      modifies this
      ensures State() == BeginDone(old(State()))
    {
      starting := starting - 1;
      OpenNewWindow();
    }

    method Stop()
      modifies this
      ensures State() == Halt(old(State()))
    {
      running := false;
      ClearWindowTimer();
    }

    method ClearWindowTimer()
      modifies this`windowTimer, this`armed
      ensures State() == ClearTimer(old(State()))
    {
      if windowTimer.Some? {
        armed := armed - {windowTimer.value};
        windowTimer := None;
      }
    }

    method OpenNewWindow()
      modifies this`nextWindowId, this`currentWindow, this`checkpointWindows, this`windowTimer, this`armed
      ensures State() == OpenNew(old(State()))
    {
      var id := nextWindowId;
      nextWindowId := nextWindowId + 1;
      currentWindow := Some(id);
      checkpointWindows := checkpointWindows[id := Window([], [], false, None, None)];
      windowTimer := Some(id);
      armed := armed + {id};
    }

    method CloseWindow(w: nat)
      requires w in checkpointWindows
      modifies this
      ensures State() == CloseStart(old(State()), config, w)
    {
      hide Node;
      var window := checkpointWindows[w];
      if window.closed {
        return;
      }
      checkpointWindows := checkpointWindows[w := window.(closed := true)];
      ClearWindowTimer();
      if |window.events| == 0 {
        OpenNewWindow();
        return;
      }
      var root := BuildMerkleTree(config.h, window.messageIds);
      checkpointWindows := checkpointWindows[w := window.(closed := true, merkleRoot := Some(root))];
      closing := closing + {w};
    }

    /** After the waits of `closeWindow`, whether they succeeded or threw. */
    method CloseWindowDone(w: nat)
      modifies this
      ensures State() == CloseFinish(old(State()), w)
    {
      closing := closing - {w};
      if running {
        OpenNewWindow();
      }
    }

    /** The decoding part of `addDeposit`; None stands for a thrown error. */
    method EventId(e: Event) returns (messageId: Option<Digest>)
      ensures messageId == MessageId(config, e)
    {
      hide Preimage, FitFields, Full, KeepFirst, ValidText;
      var senderBytes := Base58ToBytes(e.sender, 32);
      if senderBytes.None? || e.recipient.None? {
        return None;
      }
      var srcProgramId := Base58ToBytes(config.programId, 32);
      if srcProgramId.None? {
        return None;
      }
      var preimage := ValidatorPreimage(Fields(1, 2, srcProgramId.value, e.slot, e.eventIndex, senderBytes.value,
                                               e.recipient.value, e.amount, e.nonce, Zeros(32)));
      return Some(config.h(preimage));
    }

    /** The returned id is None when the deposit was not taken. */
    method AddDepositEvent(e: Event) returns (messageId: Option<Digest>)
      requires currentWindow.Some? ==> currentWindow.value in checkpointWindows
      modifies this
      ensures State() == AddDeposit(old(State()), config, e)
      ensures messageId == if old(running) then MessageId(config, e) else None
    {
      hide MessageId, CloseStart;
      if !running {
        return None;
      }
      if currentWindow.None? || checkpointWindows[currentWindow.value].closed {
        OpenNewWindow();
      }
      var w := currentWindow.value;
      messageId := EventId(e);
      if messageId == None {
        return;
      }
      var window := checkpointWindows[w];
      checkpointWindows := checkpointWindows[w := Push(window, e, messageId.value)];
      var maxEvents := if config.maxEventsPerCheckpoint == 0 then 100 else config.maxEventsPerCheckpoint;
      if |checkpointWindows[w].events| >= maxEvents {
        CloseWindow(w);
      }
    }

    method OnTimer(w: nat)
      requires w in checkpointWindows
      modifies this
      ensures State() == TimerFires(old(State()), config, w)
    {
      armed := armed - {w};
      if |checkpointWindows[w].events| > 0 {
        CloseWindow(w);
      } else {
        OpenNewWindow();
      }
    }

    /** Merkle proof of one event of a window, as the proof generator computes it. */
    method ProveEvent(w: nat, eventIdx: nat) returns (siblings: seq<bytes>, pathIndices: seq<int>)
      requires w in checkpointWindows && eventIdx < Pow2(TREE_DEPTH)
      ensures IsProof(config.h, checkpointWindows[w].messageIds, VALIDATOR_PAD, TREE_DEPTH, eventIdx, siblings,
                      pathIndices)
    {
      hide Node, Pow2, IsProof, Fold;
      siblings, pathIndices := GetMerkleProof(config.h, checkpointWindows[w].messageIds, eventIdx);
    }
  }
}
