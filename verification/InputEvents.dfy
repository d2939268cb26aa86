/** Linux input events as the multi-touch protocol type B uses them, and the slots that
    collect their values. */
module InputEvents {

  const EV_SYN := 0
  const EV_KEY := 1
  const EV_ABS := 3

  const SYN_REPORT := 0
  const SYN_DROPPED := 3

  const ABS_MT_SLOT := 0x2f
  const ABS_MT_TOUCH_MAJOR := 0x30
  const ABS_MT_TOUCH_MINOR := 0x31
  const ABS_MT_POSITION_X := 0x35
  const ABS_MT_POSITION_Y := 0x36
  const ABS_MT_TRACKING_ID := 0x39
  const ABS_MT_PRESSURE := 0x3a

  const KEY_SPACE := 57
  const KEY_FN := 0x1d0
  const KEY_MAX := 0x2ff

  const BTN_TOOL_FINGER := 0x145
  const BTN_TOUCH := 0x14a
  const BTN_TOOL_DOUBLETAP := 0x14d
  const BTN_TOOL_TRIPLETAP := 0x14e
  const BTN_TOOL_QUADTAP := 0x14f

  datatype InputEvent = InputEvent(typ: int, code: int, value: int) {
    function Key(): EventKey { EventKey(typ, code) }

    predicate IsDropped() { typ == EV_SYN && code == SYN_DROPPED }
  }

  datatype EventKey = EventKey(typ: int, code: int) {
    predicate IsSyn() { typ == EV_SYN && code == SYN_REPORT }

    predicate IsSlot() { typ == EV_ABS && code == ABS_MT_SLOT }

    predicate IsTrackingID() { typ == EV_ABS && code == ABS_MT_TRACKING_ID }

    predicate IsX() { typ == EV_ABS && code == ABS_MT_POSITION_X }

    predicate IsY() { typ == EV_ABS && code == ABS_MT_POSITION_Y }

    predicate IsSupportedForTouchpads() {
      typ == EV_ABS &&
      (|| code == ABS_MT_TRACKING_ID
       || code == ABS_MT_PRESSURE
       || code == ABS_MT_POSITION_X
       || code == ABS_MT_POSITION_Y
       || code == ABS_MT_TOUCH_MAJOR
       || code == ABS_MT_TOUCH_MINOR)
    }
  }

  const TRACKING_ID := EventKey(EV_ABS, ABS_MT_TRACKING_ID)
  const POSITION_X := EventKey(EV_ABS, ABS_MT_POSITION_X)
  const POSITION_Y := EventKey(EV_ABS, ABS_MT_POSITION_Y)
  const PRESSURE := EventKey(EV_ABS, ABS_MT_PRESSURE)
  const TOUCH_MAJOR := EventKey(EV_ABS, ABS_MT_TOUCH_MAJOR)

  const SLOT_MISSING_VALUE := -1

  type Slot = map<EventKey, int>

  function FindValue(slot: Slot, key: EventKey): int {
    if key in slot then slot[key] else SLOT_MISSING_VALUE
  }
}
