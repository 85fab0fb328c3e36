/** `components/ui/toast.tsx`: the toast queue. `show` appends a toast with
    the next numeric id and the defaults filled in, and asks for a timer
    that removes it; the close button and the timer remove by id; Escape
    clears the queue. The timer itself is not modelled: `Show` returns the
    request and `Remove` is what it calls. */
module Toasts {
  import opened Wrappers
  import opened JsString
  import opened Num
  import opened Tones

  /** A property of the object passed to `show`: left out, given as
      `undefined`, or given a value. */
  datatype Prop<T> = Absent | Undefined | Given(value: T)

  /** `{ [k]: d, ...t }` for one property: a property the caller wrote,
      even as `undefined`, replaces the default. */
  function Spread<T>(d: T, p: Prop<T>): (r: Prop<T>)
    ensures p.Absent? ==> r == Given(d)
    ensures !p.Absent? ==> r == p
  {
    if p.Absent? then Given(d) else p
  }

  datatype ToastInput = ToastInput(title: Prop<string>, message: string, kind: Prop<string>, timeoutMs: Prop<Number>)

  datatype Toast = Toast(id: string, title: Prop<string>, message: string, kind: Prop<string>, timeoutMs: Prop<Number>)

  /** The queue and `idRef.current`. */
  datatype State = State(toasts: seq<Toast>, counter: nat)

  const Initial := State([], 0)

  /** A request to call `remove(id)` after `delay` milliseconds. */
  datatype Timer = Timer(id: string, delay: Number)

  /** `item.timeoutMs && item.timeoutMs > 0` */
  predicate SchedulesRemoval(p: Prop<Number>) {
    p.Given? && ((p.value.Finite? && p.value.value > 0.0) || p.value == Infinite(false))
  }

  /** `show(t)` */
  function Show(st: State, t: ToastInput): (r: (State, Option<Timer>))
    ensures r.0.counter == st.counter + 1
    ensures |r.0.toasts| == |st.toasts| + 1 && r.0.toasts[..|st.toasts|] == st.toasts
    ensures var item := r.0.toasts[|st.toasts|];
      item.id == NatToString(st.counter + 1) && item.title == t.title && item.message == t.message
      && item.kind == Spread("info", t.kind) && item.timeoutMs == Spread(Finite(3500.0), t.timeoutMs)
    ensures r.1.Some? <==> SchedulesRemoval(Spread(Finite(3500.0), t.timeoutMs))
    ensures r.1.Some? ==> r.1.value == Timer(NatToString(st.counter + 1), Spread(Finite(3500.0), t.timeoutMs).value)
  {
    var id := NatToString(st.counter + 1);
    var item := Toast(id, t.title, t.message, Spread("info", t.kind), Spread(Finite(3500.0), t.timeoutMs));
    var timer := if SchedulesRemoval(item.timeoutMs) then Some(Timer(id, item.timeoutMs.value)) else None;
    assert (st.toasts + [item])[..|st.toasts|] == st.toasts;
    (State(st.toasts + [item], st.counter + 1), timer)
  }

  /** `prev.filter((t) => t.id !== id)` */
  function RemoveId(ts: seq<Toast>, id: string): (r: seq<Toast>)
    ensures |r| <= |ts|
    ensures forall t :: t in r <==> t in ts && t.id != id
  {
    if |ts| == 0 then []
    else
      var rest := RemoveId(ts[1..], id);
      assert forall t :: t in ts <==> t == ts[0] || t in ts[1..];
      if ts[0].id != id then [ts[0]] + rest else rest
  }

  /** `remove(id)`, from the close button or a timer. */
  function Remove(st: State, id: string): (r: State)
    ensures r.counter == st.counter
    ensures forall t :: t in r.toasts <==> t in st.toasts && t.id != id
  {
    st.(toasts := RemoveId(st.toasts, id))
  }

  /** The `keydown` listener: Escape empties the queue, other keys do
      nothing. */
  function KeyDown(st: State, key: string): (r: State)
    ensures key == "Escape" ==> r.toasts == [] && r.counter == st.counter
    ensures key != "Escape" ==> r == st
  {
    if key == "Escape" then st.(toasts := []) else st
  }

  /** The numeric value of an id. */
  function IdValue(t: Toast): nat {
    if |t.id| > 0 && AllDigits(t.id) then DigitsValue(t.id) else 0
  }

  /** Every id is the decimal text of a number from 1 to the counter, and
      the numbers increase along the queue. */
  predicate Numbered(ts: seq<Toast>, counter: nat) {
    (forall i :: 0 <= i < |ts| ==> |ts[i].id| > 0 && AllDigits(ts[i].id) && 1 <= IdValue(ts[i]) <= counter)
    && (forall i, j :: 0 <= i < j < |ts| ==> IdValue(ts[i]) < IdValue(ts[j]))
  }

  predicate Valid(st: State) {
    Numbered(st.toasts, st.counter)
  }

  lemma InitialValid()
    ensures Valid(Initial)
  {
  }

  /** `show` keeps the ids numbered: the new one is the largest yet. */
  lemma ShowValid(st: State, t: ToastInput)
    requires Valid(st)
    ensures Valid(Show(st, t).0)
  {
    var r := Show(st, t).0;
    var n := |st.toasts|;
    NatToStringValue(st.counter + 1);
    assert IdValue(r.toasts[n]) == st.counter + 1;
    assert forall i :: 0 <= i < n ==> r.toasts[i] == st.toasts[i];
  }

  /** Every id of `ts` has a value of at least `v`. */
  predicate AtLeast(ts: seq<Toast>, v: nat) {
    forall i :: 0 <= i < |ts| ==> IdValue(ts[i]) >= v
  }

  lemma TailNumbered(ts: seq<Toast>, counter: nat)
    requires Numbered(ts, counter) && |ts| > 0
    ensures Numbered(ts[1..], counter)
    ensures AtLeast(ts[1..], IdValue(ts[0]) + 1)
  {
    var tail := ts[1..];
    assert forall i :: 0 <= i < |tail| ==> tail[i] == ts[i + 1];
  }

  /** A toast in front of a numbered queue of larger ids keeps it
      numbered. */
  lemma ConsNumbered(t: Toast, rest: seq<Toast>, counter: nat)
    requires Numbered(rest, counter) && AtLeast(rest, IdValue(t) + 1)
    requires |t.id| > 0 && AllDigits(t.id) && 1 <= IdValue(t) <= counter
    ensures Numbered([t] + rest, counter)
    ensures AtLeast([t] + rest, IdValue(t))
  {
    var r := [t] + rest;
    assert forall i :: 1 <= i < |r| ==> r[i] == rest[i - 1];
  }

  /** Removing toasts keeps the rest in order. */
  lemma {:induction false} RemoveNumbered(ts: seq<Toast>, counter: nat, id: string)
    requires Numbered(ts, counter)
    ensures Numbered(RemoveId(ts, id), counter)
    ensures |ts| > 0 ==> AtLeast(RemoveId(ts, id), IdValue(ts[0]))
  {
    if |ts| > 0 {
      var tail := ts[1..];
      TailNumbered(ts, counter);
      RemoveNumbered(tail, counter, id);
      var rest := RemoveId(tail, id);
      assert AtLeast(rest, IdValue(ts[0]) + 1) by {
        if |tail| > 0 {
          assert IdValue(tail[0]) >= IdValue(ts[0]) + 1;
        }
      }
      if ts[0].id != id {
        ConsNumbered(ts[0], rest, counter);
      }
    }
  }

  lemma RemoveValid(st: State, id: string)
    requires Valid(st)
    ensures Valid(Remove(st, id))
  {
    RemoveNumbered(st.toasts, st.counter, id);
  }

  lemma KeyDownValid(st: State, key: string)
    requires Valid(st)
    ensures Valid(KeyDown(st, key))
  {
  }

  /** No two toasts in a valid queue share an id. */
  lemma IdsUnique(st: State)
    requires Valid(st)
    ensures forall i, j :: 0 <= i < j < |st.toasts| ==> st.toasts[i].id != st.toasts[j].id
  {
  }

  /** A timer's `remove(id)` therefore takes out exactly one toast while
      that toast is still queued. */
  lemma {:induction false} RemoveOne(ts: seq<Toast>, counter: nat, k: nat)
    requires Numbered(ts, counter) && k < |ts|
    ensures |RemoveId(ts, ts[k].id)| == |ts| - 1
  {
    var tail := ts[1..];
    assert Numbered(tail, counter) by {
      assert forall i :: 0 <= i < |tail| ==> tail[i] == ts[i + 1];
    }
    if k == 0 {
      NoneRemoved(tail, ts[0].id, IdValue(ts[0]));
    } else {
      assert ts[k] == tail[k - 1];
      assert ts[0].id != ts[k].id by { assert IdValue(ts[0]) < IdValue(ts[k]); }
      RemoveOne(tail, counter, k - 1);
    }
  }

  /** An id whose value is below every id of the queue removes nothing. */
  lemma {:induction false} NoneRemoved(ts: seq<Toast>, id: string, v: nat)
    requires forall i :: 0 <= i < |ts| ==> |ts[i].id| > 0 && AllDigits(ts[i].id) && IdValue(ts[i]) > v
    requires |id| > 0 && AllDigits(id) && DigitsValue(id) == v
    ensures RemoveId(ts, id) == ts
  {
    if |ts| > 0 {
      assert ts[0].id != id;
      NoneRemoved(ts[1..], id, v);
    }
  }

  /** `palette(kind)`: `"info"`, anything unknown and `undefined` are blue. */
  function PaletteTone(kind: Prop<string>): (t: Tone)
    ensures t == Blue <==> kind !in {Given("success"), Given("warning"), Given("error")}
  {
    if kind == Given("success") then Emerald
    else if kind == Given("warning") then Amber
    else if kind == Given("error") then Red
    else Blue
  }

  datatype Palette = Palette(bg: string, border: string, text: string)

  function PaletteOf(t: Tone): Palette {
    Palette("bg-" + ToneName(t) + "-50", "border-" + ToneName(t) + "-200", "text-" + ToneName(t) + "-900")
  }

  /** `palette(kind)` */
  function PaletteFor(kind: Prop<string>): Palette {
    PaletteOf(PaletteTone(kind))
  }

  /** A toast shown without a kind uses the info palette. */
  lemma DefaultKindIsInfo(st: State, t: ToastInput)
    requires t.kind.Absent? || t.kind.Undefined?
    ensures PaletteFor(Show(st, t).0.toasts[|st.toasts|].kind) == PaletteOf(Blue)
  {
  }
}
