/**
 * The fullcheck message after delivery (bilal.js, lines 100-144): the page
 * counter, the Previous/Next buttons whose disabled flags follow it, the
 * component collector that accepts clicks from the command's author on this
 * message only, the deletion timer that each accepted click restarts, and the
 * collector's own time limit, which is counted from delivery and is not
 * restarted. Time is an integer number of milliseconds handed in by the
 * caller; each timer expiry is an event method of its own.
 */
module Pagination {
  import opened Wrappers
  import opened Lookup

  /** The 60000 ms used both for the deletion timer and for the collector's limit. */
  const Window := 60000

  datatype Button = Prev | Next

  /** The two timers a delivered card arms. */
  datatype Timer = DeleteTimer | CollectorTimer

  /** The disabled flags of the two buttons. */
  datatype ButtonRow = ButtonRow(prevDisabled: bool, nextDisabled: bool)

  /** The row rebuilt after a click (bilal.js:132-135). */
  function RowAt(page: int, count: int): ButtonRow
  {
    ButtonRow(page == 0, page == count - 1)
  }

  /** The row sent with the first page (bilal.js:101-104): the same flags as RowAt for page 0. */
  function InitialRow(count: int): (r: ButtonRow)
    ensures r == RowAt(0, count)
  {
    ButtonRow(true, count == 1)
  }

  predicate Enabled(row: ButtonRow, b: Button)
  {
    match b
    case Prev => !row.prevDisabled
    case Next => !row.nextDisabled
  }

  /** `page--` or `page++`. */
  function Step(page: int, b: Button): int
  {
    match b
    case Prev => page - 1
    case Next => page + 1
  }

  /** A click on a button that the current row leaves enabled keeps the page a valid index. */
  lemma StepInBounds(page: int, count: int, b: Button)
    requires 0 <= page < count && Enabled(RowAt(page, count), b)
    ensures 0 <= Step(page, b) < count
    ensures Step(page, b) == page + 1 || Step(page, b) == page - 1
  {
  }

  /** A single page leaves both buttons disabled, so nothing can be clicked. */
  lemma SinglePageFrozen(b: Button)
    ensures !Enabled(InitialRow(1), b)
  {
  }

  class Session {
    const pages: seq<Page>
    const authorId: string
    const messageId: string
    const deliveredAt: int
    /** When the collector stops (its `time` option), fixed at delivery. */
    const collectorEnd: int

    var page: int
    /** The card the message displays. */
    var shown: Page
    /** The button row on the message; None once the components are stripped. */
    var controls: Option<ButtonRow>
    /** The pending deletion timer; None once it has fired or been cleared. */
    var deleteAt: Option<int>
    var collecting: bool
    var deleted: bool
    /** The time of the last event handled. */
    var clock: int
    /**
     * Whether an accepted click re-armed the deletion timer, so that it was
     * armed after the collector's timer rather than just before it.
     */
    ghost var rearmed: bool

    ghost predicate Valid()
      reads this
    {
      && |pages| >= 1
      && 0 <= page < |pages|
      && shown == pages[page]
      && collectorEnd == deliveredAt + Window
      && deliveredAt <= clock
      && (collecting ==>
            && !deleted
            && controls == Some(RowAt(page, |pages|))
            && clock < collectorEnd
            && deleteAt.Some?
            && collectorEnd <= deleteAt.value <= clock + Window
            && (!rearmed ==> deleteAt.value == collectorEnd))
      && (!collecting ==> deleteAt.None? && controls.None?)
    }

    /**
     * The timer whose callback runs next. Node.js runs the timer that is due
     * first, and of two timers due at the same time the one armed first. The
     * first deletion timer is armed just before the collector's (bilal.js:122,
     * 125) with the same delay; a re-armed one is armed after it and is due
     * no earlier.
     */
    ghost function NextTimer(): (t: Timer)
      reads this
      requires Valid() && collecting
      ensures t == DeleteTimer <==> !rearmed
    {
      if deleteAt.value < collectorEnd || (deleteAt.value == collectorEnd && !rearmed) then DeleteTimer
      else CollectorTimer
    }

    /** The filter of bilal.js:124. */
    predicate Accepts(userId: string, msgId: string)
    {
      userId == authorId && msgId == messageId
    }

    /** bilal.js:100-125: send the first page with its buttons, start the timer and the collector. */
    constructor Deliver(ps: seq<Page>, author: string, msgId: string, now: int)
      requires |ps| >= 1
      ensures Valid()
      ensures pages == ps && authorId == author && messageId == msgId && deliveredAt == now
      ensures page == 0 && shown == ps[0] && controls == Some(InitialRow(|ps|))
      ensures deleteAt == Some(now + Window) && collectorEnd == now + Window
      ensures collecting && !deleted && clock == now && !rearmed
    {
      pages, authorId, messageId := ps, author, msgId;
      deliveredAt, collectorEnd := now, now + Window;
      page := 0;
      shown := ps[0];
      controls := Some(InitialRow(|ps|));
      deleteAt := Some(now + Window);
      collecting, deleted := true, false;
      clock := now;
      rearmed := false;
    }

    /**
     * A button click at time `at` (bilal.js:127-139). It is collected only
     * while the collector runs, only from the author on this message, and
     * only on an enabled button (the service does not deliver a click on a
     * disabled one). A collected click moves the page by one, re-renders it
     * with a fresh row and restarts the deletion timer; any other click
     * changes nothing.
     */
    method Click(at: int, userId: string, msgId: string, b: Button) returns (accepted: bool)
      requires Valid()
      requires clock <= at
      requires collecting ==> at < collectorEnd
      modifies this
      ensures Valid()
      ensures accepted == (old(collecting) && Accepts(userId, msgId) && Enabled(old(controls).value, b))
      ensures accepted ==> page == Step(old(page), b) && page == old(page) + (if b == Next then 1 else -1)
      ensures accepted ==> shown == pages[page] && controls == Some(RowAt(page, |pages|))
      ensures accepted ==> deleteAt == Some(at + Window) && collecting && !deleted && rearmed
      ensures accepted && at > deliveredAt ==> deleteAt.value > collectorEnd
      ensures !accepted ==>
        page == old(page) && shown == old(shown) && controls == old(controls)
        && deleteAt == old(deleteAt) && collecting == old(collecting) && deleted == old(deleted)
        && rearmed == old(rearmed)
      ensures clock == at
    {
      clock := at;
      accepted := collecting && Accepts(userId, msgId) && Enabled(controls.value, b);
      if !accepted {
        return;
      }
      StepInBounds(page, |pages|, b);
      page := Step(page, b);
      controls := Some(RowAt(page, |pages|));
      shown := pages[page];
      deleteAt := Some(at + Window);
      rearmed := true;
    }

    /**
     * The collector's time limit runs out (bilal.js:141-144). This runs first
     * only once a click has re-armed the deletion timer; the handler clears
     * that timer and strips the buttons, and the card stays on screen.
     */
    method EndCollector()
      requires Valid() && collecting && NextTimer() == CollectorTimer
      modifies this
      ensures Valid()
      ensures !collecting && !deleted && deleteAt.None? && controls.None?
      ensures page == old(page) && shown == old(shown)
      ensures old(rearmed) && old(deleteAt).value >= collectorEnd && clock == collectorEnd
    {
      collecting := false;
      deleteAt := None;
      controls := None;
      clock := collectorEnd;
    }

    /**
     * The deletion timer fires (bilal.js:113-119). It runs first exactly when
     * no click re-armed it, at the collector's end time. The collector's time
     * limit runs right after it in the same pass of the timer loop; its end
     * handler's edit races the deletion, and a failure of that edit is
     * swallowed (bilal.js:143).
     */
    method FireDeleteTimer()
      requires Valid() && collecting && NextTimer() == DeleteTimer
      modifies this
      ensures Valid()
      ensures deleted && !collecting && deleteAt.None? && controls.None?
      ensures !old(rearmed) && old(deleteAt).value == collectorEnd && clock == deliveredAt + Window
      ensures page == old(page) && shown == old(shown)
    {
      clock := deleteAt.value;
      deleted := true;
      collecting := false;
      deleteAt := None;
      controls := None;
    }
  }

  /**
   * A card that nobody clicks: 60 seconds after delivery the deletion timer
   * runs before the collector's and the message is deleted.
   */
  method Unclicked(ps: seq<Page>, author: string, msgId: string, now: int) returns (s: Session)
    requires |ps| >= 1
    ensures s.deleted && !s.collecting && s.clock == now + Window && s.shown == ps[0]
  {
    s := new Session.Deliver(ps, author, msgId, now);
    s.FireDeleteTimer();
  }
}
