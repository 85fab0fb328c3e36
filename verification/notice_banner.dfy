/** `components/ui/notice-banner.tsx`: the list of notices the user has not
    dismissed, each with colours and an icon chosen by its severity. The
    dismissals are the object stored under `faltas:dismissed-notices`,
    given as its fields. */
module NoticeBanner {
  import opened Wrappers
  import opened Assoc
  import opened JsonText
  import opened Seqs
  import opened NoticesRoute
  import opened Tones

  /** The four icons of the banner. */
  datatype Icon = InfoIcon | SuccessIcon | ErrorIcon | AlertIcon

  /** The icon a severity or icon name stands for, if any. */
  function NamedIcon(name: Json): (r: Option<Icon>)
    ensures r.Some? <==> name in {JString("info"), JString("success"), JString("error"), JString("warning")}
  {
    if name == JString("info") then Some(InfoIcon)
    else if name == JString("success") then Some(SuccessIcon)
    else if name == JString("error") then Some(ErrorIcon)
    else if name == JString("warning") then Some(AlertIcon)
    else None
  }

  /** `IconFor({ icon, severity })`: a known icon name wins; otherwise the
      severity decides, and anything unknown shows the alert icon. */
  function IconFor(icon: Option<Json>, severity: Json): (r: Icon)
    ensures icon.Some? && NamedIcon(icon.value).Some? ==> r == NamedIcon(icon.value).value
    ensures !(icon.Some? && NamedIcon(icon.value).Some?) && NamedIcon(severity).Some? ==> r == NamedIcon(severity).value
    ensures !(icon.Some? && NamedIcon(icon.value).Some?) && NamedIcon(severity).None? ==> r == AlertIcon
  {
    if icon == Some(JString("info")) then InfoIcon
    else if icon == Some(JString("success")) then SuccessIcon
    else if icon == Some(JString("error")) then ErrorIcon
    else if icon == Some(JString("warning")) then AlertIcon
    else if severity == JString("info") then InfoIcon
    else if severity == JString("success") then SuccessIcon
    else if severity == JString("error") then ErrorIcon
    else AlertIcon
  }

  /** The `switch` of `classesFor`: `"warning"` and everything else fall to
      amber. */
  function ToneFor(severity: Json): (t: Tone)
    ensures t == Amber <==> severity !in {JString("info"), JString("success"), JString("error")}
  {
    if severity == JString("info") then Blue
    else if severity == JString("success") then Emerald
    else if severity == JString("error") then Red
    else Amber
  }

  function Classes(t: Tone): string {
    "border bg-" + ToneName(t) + "-50 text-" + ToneName(t) + "-900"
  }

  /** `classesFor(severity)` */
  function ClassesFor(severity: Json): string {
    Classes(ToneFor(severity))
  }

  /** Different tones never share their classes. */
  lemma ClassesDistinct(a: Tone, b: Tone)
    requires a != b
    ensures Classes(a) != Classes(b)
  {
    var pre := "border bg-";
    assert |pre| == 10;
    assert Classes(a)[10] == ToneName(a)[0];
    assert Classes(b)[10] == ToneName(b)[0];
    ToneInitials(a, b);
  }

  /** `!dismissed[n.id]` */
  predicate NotDismissed(dismissed: AList<Json>, n: Notice) {
    !Truthy(Get(dismissed, n.id))
  }

  /** `visible`: the notices not dismissed, in order. */
  function Visible(notices: seq<Notice>, dismissed: AList<Json>): (r: seq<Notice>)
    ensures forall n :: n in r <==> n in notices && NotDismissed(dismissed, n)
  {
    Filter(notices, n => NotDismissed(dismissed, n))
  }

  /** `onDismiss(id)`: the id is marked, earlier marks stay. */
  function Dismiss(dismissed: AList<Json>, id: string): (r: AList<Json>)
    ensures Get(r, id) == Some(JBool(true))
    ensures forall k :: k != id ==> Get(r, k) == Get(dismissed, k)
  {
    Put(dismissed, id, JBool(true))
  }

  /** Dismissing a notice hides exactly the notices with its id. */
  lemma {:induction false} DismissHides(notices: seq<Notice>, dismissed: AList<Json>, id: string)
    ensures Visible(notices, Dismiss(dismissed, id)) == Filter(Visible(notices, dismissed), (n: Notice) => n.id != id)
  {
    var d := Dismiss(dismissed, id);
    if |notices| > 0 {
      DismissHides(notices[1..], dismissed, id);
      assert NotDismissed(d, notices[0]) == (NotDismissed(dismissed, notices[0]) && notices[0].id != id);
    }
  }

  /** What one banner shows. */
  datatype Card = Card(key: string, classes: string, icon: Icon, title: string, description: string,
                       action: Option<Json>)

  /** `n.action?.url && n.action?.label`: only an object has the two
      properties. */
  predicate HasAction(action: Option<Json>) {
    action.Some? && action.value.JObject?
    && Truthy(Get(action.value.fields, "url")) && Truthy(Get(action.value.fields, "label"))
  }

  function CardFor(n: Notice): (c: Card)
    ensures c.action.Some? <==> HasAction(n.action)
    ensures c.key == n.id && c.title == n.title && c.description == n.description
  {
    Card(n.id, ClassesFor(n.severity), IconFor(n.icon, n.severity), n.title, n.description,
         if HasAction(n.action) then n.action else None)
  }

  function Cards(ns: seq<Notice>): (r: seq<Card>)
    ensures |r| == |ns| && forall i :: 0 <= i < |ns| ==> r[i] == CardFor(ns[i])
  {
    if |ns| == 0 then [] else [CardFor(ns[0])] + Cards(ns[1..])
  }

  /** The rendered banner, `None` for `null` when nothing is visible. */
  function Render(notices: seq<Notice>, dismissed: AList<Json>): (r: Option<seq<Card>>)
    ensures r.None? <==> forall i :: 0 <= i < |notices| ==> !NotDismissed(dismissed, notices[i])
    ensures r.Some? ==> r.value == Cards(Visible(notices, dismissed))
  {
    var visible := Visible(notices, dismissed);
    if |visible| == 0 then
      assert forall i :: 0 <= i < |notices| ==> notices[i] in notices;
      None
    else
      assert visible[0] in visible;
      Some(Cards(visible))
  }
}
