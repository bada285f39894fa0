/**
 * What the steps of the checkpoint service do, field by field, and what the id of a deposit is
 * the hash of, in terms of the event and the configuration alone.
 */
module CheckpointEffects {
  import opened Bytes
  import opened Options
  import opened MerkleTree
  import opened DepositEncoding
  import opened DepositParsing
  import opened Base58
  import opened Checkpoints
  import opened CheckpointInvariants
  import opened TextDecoding
  import Messages

  // --------------------------------------------------------------------------
  // What an id says
  // --------------------------------------------------------------------------

  /** 32 bytes of an address: its base-58 value, or the first of its bytes if it has more. */
  ghost predicate AddressBytes(b: bytes, address: string) {
    && |b| == 32 && ValidText(address)
    && if |Full(address)| <= 32 then BEVal(b) == Value(address) else b == Full(address)[..32]
  }

  /** Read by the library's parser, the bytes say the event: chains 1 and 2, and every field of its own. */
  ghost predicate SaysDeposit(b: bytes, cfg: Config, e: Event) {
    && |b| == 181 && ParsedText(b).Some? && e.recipient.Some?
    && var (separator, f) := ParsedText(b).value;
    && separator == "DCC_SOL_BRIDGE_V1" && f.srcChainId == 1 && f.dstChainId == 2
    && f.slot == e.slot % 0x1_0000_0000_0000_0000 && f.eventIndex == e.eventIndex % 0x1_0000_0000
    && f.amount == e.amount % 0x1_0000_0000_0000_0000 && f.nonce == e.nonce % 0x1_0000_0000_0000_0000
    && AddressBytes(f.srcProgramId, cfg.programId) && AddressBytes(f.sender, e.sender)
    && |f.recipient| == 32
    && (forall j :: 0 <= j < 32 ==>
          f.recipient[j] == if j < |e.recipient.value| then e.recipient.value[j] else 0)
    && |f.assetId| == 32 && (forall j :: 0 <= j < 32 ==> f.assetId[j] == 0)
  }

  lemma {:induction false} ReadsModulo(v: int, n: nat)
    ensures LEVal(LE(v, n)) == v % Pow256(n)
  {
    hide LE, LEVal, Pow256;
    LEMultiple(v % Pow256(n), v / Pow256(n), n);
    LERoundTrip(v % Pow256(n), n);
  }

  lemma {:induction false} KeepsAddress(address: string)
    requires ValidText(address)
    ensures AddressBytes(KeepFirst(Full(address), 32), address)
  {
    hide Full, Value, ValidText;
    var full := Full(address);
    if |full| <= 32 {
      BEValSplit(Zeros(32 - |full|), full);
      BEValZeros(32 - |full|);
      FullValue(address);
      assert |full| == 32 ==> full[..32] == full;
    }
  }

  lemma {:induction false} ParsesBack(f: Fields)
    requires Lengths32(f)
    ensures ParsedText(Preimage(Messages.Utf8(DOMAIN_SEP), f)) ==
            Some(("DCC_SOL_BRIDGE_V1",
                  f.(srcChainId := f.srcChainId % U32, dstChainId := f.dstChainId % U32, slot := f.slot % U64,
                     eventIndex := f.eventIndex % U32, amount := f.amount % U64, nonce := f.nonce % U64)))
  {
    hide LE, LEVal, Pow256, Preimage, TextDecode, Messages.Utf8;
    DomainLength();
    SlicesOfPreimage(Messages.Utf8(DOMAIN_SEP), f);
    PowU32();
    PowU64();
    ReadsModulo(f.srcChainId, 4);
    ReadsModulo(f.dstChainId, 4);
    ReadsModulo(f.eventIndex, 4);
    ReadsModulo(f.slot, 8);
    ReadsModulo(f.amount, 8);
    ReadsModulo(f.nonce, 8);
    TextSurvives(DOMAIN_SEP);
  }

  /**
   * A deposit gets an id exactly when both addresses are base-58 texts and its recipient decodes, and the id
   * is the hash of 181 bytes that say the deposit.
   */
  lemma {:induction false} MessageIdSays(cfg: Config, e: Event)
    ensures MessageId(cfg, e).Some? <==> ValidText(e.sender) && e.recipient.Some? && ValidText(cfg.programId)
    ensures MessageId(cfg, e).Some? ==> exists b :: SaysDeposit(b, cfg, e) && MessageId(cfg, e) == Some(cfg.h(b))
  {
    hide Full, Value, ValidText, Preimage, ParsedText, Messages.Utf8, AddressBytes, KeepFirst;
    if MessageId(cfg, e).Some? {
      var f := FitFields(EventFields(cfg, e).value);
      KeepsAddress(cfg.programId);
      KeepsAddress(e.sender);
      ParsesBack(f);
      var b := Preimage(Messages.Utf8(DOMAIN_SEP), f);
      PreimageHas181(f);
      assert SaysDeposit(b, cfg, e);
    }
  }

  lemma PreimageHas181(f: Fields)
    requires Lengths32(f)
    ensures |Preimage(Messages.Utf8(DOMAIN_SEP), f)| == 181
  {
    hide Messages.Utf8, LE;
    DomainLength();
  }

  // --------------------------------------------------------------------------
  // What a step does
  // --------------------------------------------------------------------------

  /** Root of a list of ids: depth 20, padded with the leaf of 32 zero bytes. */
  predicate IsRootOf(root: Option<Digest>, cfg: Config, ids: seq<Digest>) {
    root == Some(Node(cfg.h, ids, [0] + Zeros(32), 20, 0))
  }

  /** A new window, current and with its timer, and nothing else. */
  predicate Opens(s: Service, s': Service) {
    s' == s.(windows := s.windows[s.nextId := Window([], [], false, None, None)], current := Some(s.nextId),
             nextId := s.nextId + 1, timer := Some(s.nextId), armed := s.armed + {s.nextId})
  }

  /** Window w is closed over its ids; whichever timer was remembered is cancelled; the closing call waits. */
  predicate Closes(s: Service, cfg: Config, w: nat, s': Service)
    requires w in s.windows
  {
    && w in s'.windows && IsRootOf(s'.windows[w].merkleRoot, cfg, s.windows[w].messageIds)
    && s' == s.(windows := s.windows[w := s.windows[w].(closed := true, merkleRoot := s'.windows[w].merkleRoot)],
                timer := None, armed := if s.timer.Some? then s.armed - {s.timer.value} else s.armed,
                closing := s.closing + {w})
  }

  /**
   * Taking a deposit: nothing while stopped; otherwise a window is opened unless the current one is open, even
   * if the deposit then gets no id; the deposit and its id go to the end of that window, which is closed
   * exactly when it reaches the maximum, 100 if none is configured.
   */
  lemma {:induction false} DepositEffect(s: Service, cfg: Config, e: Event)
    requires RefsOk(s)
    ensures var s' := AddDeposit(s, cfg, e);
            if !s.running then s' == s
            else exists ready: Service ::
              && (if s.current.Some? && !s.windows[s.current.value].closed then ready == s else Opens(s, ready))
              && ready.current.Some? && ready.current.value in ready.windows
              && var w := ready.current.value;
                 match MessageId(cfg, e)
                 case None => s' == ready
                 case Some(id) =>
                   var before := ready.windows[w];
                   var window := before.(events := before.events + [e], messageIds := before.messageIds + [id]);
                   var filled := ready.(windows := ready.windows[w := window]);
                   if |before.events| + 1
                      >= (if cfg.maxEventsPerCheckpoint == 0 then 100 else cfg.maxEventsPerCheckpoint)
                   then Closes(filled, cfg, w, s') else s' == filled
  {
    hide Node, MessageId;
    if s.running {
      var ready := if s.current.Some? && !s.windows[s.current.value].closed then s else OpenNew(s);
      assert (s.current.Some? && !s.windows[s.current.value].closed) || Opens(s, ready);
      assert Ready(s) == ready;
    }
  }

  /** Closing a window: a closed one is left alone, an empty one is replaced by a new one, any other gets its root. */
  lemma CloseEffect(s: Service, cfg: Config, w: nat)
    requires w in s.windows
    ensures var (window, s') := (s.windows[w], CloseStart(s, cfg, w));
            var cancelled := s.(windows := s.windows[w := window.(closed := true)], timer := None,
                                armed := if s.timer.Some? then s.armed - {s.timer.value} else s.armed);
            && (window.closed ==> s' == s)
            && (!window.closed && window.events == [] ==> Opens(cancelled, s'))
            && (!window.closed && window.events != [] ==> Closes(s, cfg, w, s'))
  {
    hide Node;
  }

  /** A timer of an open window with deposits closes it; of an empty one, closed or not, opens another. */
  lemma TimerEffect(s: Service, cfg: Config, w: nat)
    requires w in s.windows
    ensures var (fired, s') := (s.(armed := s.armed - {w}), TimerFires(s, cfg, w));
            && (s.windows[w].events == [] ==> Opens(fired, s'))
            && (s.windows[w].events != [] && !s.windows[w].closed ==> Closes(fired, cfg, w, s'))
            && (s.windows[w].events != [] && s.windows[w].closed ==> s' == fired)
  {
    hide Node;
  }

  /**
   * The end of a closing call opens a window if the service runs, the end of a start always; a stop cancels a
   * timer; activation names the checkpoint.
   */
  lemma StartStopEffect(s: Service, w: nat, checkpointId: nat)
    ensures w in s.windows ==>
              Activate(s, w, checkpointId)
              == s.(windows := s.windows[w := s.windows[w].(checkpointId := Some(checkpointId))])
    ensures s.running ==> Opens(s.(closing := s.closing - {w}), CloseFinish(s, w))
    ensures !s.running ==> CloseFinish(s, w) == s.(closing := s.closing - {w})
    ensures Begin(s) == s.(running := true, starting := s.starting + 1)
    ensures s.starting > 0 ==> Opens(s.(starting := s.starting - 1), BeginDone(s))
    ensures Halt(s) == s.(running := false, timer := None,
                          armed := if s.timer.Some? then s.armed - {s.timer.value} else s.armed)
  {}
}
