/** The loading overlay's counter of pending loads, the skeleton placeholders
    and the toast icons (js/animations.js). */
module Animations {
  import Utils

  class AnimationManager {
    /** How many `showLoading` calls are still waiting for their `hideLoading`. */
    var loadingCount: int
    /** Whether the overlay carries the `active` class. */
    var overlayActive: bool
    /** The overlay's message. */
    var message: string

    /** The count is never negative and the overlay shows exactly while a
        load is pending. */
    predicate Valid()
      reads this
    {
      loadingCount >= 0 && (overlayActive <==> loadingCount > 0)
    }

    constructor()
      ensures loadingCount == 0 && !overlayActive && Valid()
    {
      loadingCount := 0;
      overlayActive := false;
      message := "Carregando...";
    }

    /** `showLoading(text)`: one more pending load; the overlay shows `text`. */
    method ShowLoading(text: string)
      requires Valid()
      modifies this
      ensures loadingCount == old(loadingCount) + 1 && overlayActive && message == text
      ensures Valid()
    {
      loadingCount := loadingCount + 1;
      message := text;
      overlayActive := true;
    }

    /** `hideLoading()`: one load fewer, never below zero; the overlay hides
        only when none is left. */
    method HideLoading()
      requires Valid()
      modifies this
      ensures loadingCount == (if old(loadingCount) > 0 then old(loadingCount) - 1 else 0)
      ensures loadingCount == 0 ==> !overlayActive
      ensures loadingCount > 0 ==> overlayActive == old(overlayActive)
      ensures message == old(message)
      ensures Valid()
    {
      loadingCount := if loadingCount - 1 > 0 then loadingCount - 1 else 0;
      if loadingCount == 0 {
        overlayActive := false;
      }
    }
  }

  // ---------------------------------------------------------------- skeletons

  /** A placeholder element: its class and the inline styles it gets (`""`
      for a style left unset). */
  datatype Skeleton = Skeleton(className: string, height: string, marginBottom: string,
                               borderRadius: string, width: string)

  /** The `i`-th placeholder of kind `kind`. */
  function SkeletonAt(kind: string, i: int): Skeleton {
    var className := "skeleton skeleton-" + kind;
    if kind == "card" then Skeleton(className, "120px", "15px", "8px", "")
    else if kind == "text" then Skeleton(className, "16px", "8px", "", if i % 2 == 0 then "80%" else "60%")
    else Skeleton(className, "", "", "", "")
  }

  /** `createSkeleton(count, type)`: the container's children, one per index
      below `count`. */
  method CreateSkeleton(count: int, kind: string) returns (children: seq<Skeleton>)
    ensures |children| == if count > 0 then count else 0
    ensures forall i :: 0 <= i < |children| ==> children[i] == SkeletonAt(kind, i)
  {
    children := [];
    var i := 0;
    while i < count
      invariant 0 <= i && |children| == i && (count > 0 ==> i <= count) && (count <= 0 ==> i == 0)
      invariant forall j :: 0 <= j < i ==> children[j] == SkeletonAt(kind, j)
    {
      children := children + [SkeletonAt(kind, i)];
      i := i + 1;
    }
  }

  /** Text placeholders alternate between 80% and 60% wide, starting at 80%;
      every placeholder's class names its kind. */
  lemma SkeletonWidths(kind: string, i: nat)
    ensures kind == "text" ==> SkeletonAt(kind, i).width == (if i % 2 == 0 then "80%" else "60%")
    ensures kind == "text" ==> SkeletonAt(kind, i).width != SkeletonAt(kind, i + 1).width
    ensures SkeletonAt(kind, i).className == "skeleton skeleton-" + kind
  {
    assert "80%"[0] != "60%"[0];
  }

  // ---------------------------------------------------------------- toasts

  /** `getToastIcon(type)`. */
  function ToastIcon(kind: string): (icon: string)
    ensures kind != "success" && kind != "error" && kind != "warning" ==> icon == "fa-info-circle"
  {
    if kind == "success" then "fa-check-circle"
    else if kind == "error" then "fa-exclamation-circle"
    else if kind == "warning" then "fa-exclamation-triangle"
    else "fa-info-circle"
  }

  /** The toast icons are the notification icons behind `fa-`. */
  lemma FaIcons()
    ensures "fa-" + "check-circle" == "fa-check-circle"
    ensures "fa-" + "exclamation-circle" == "fa-exclamation-circle"
    ensures "fa-" + "exclamation-triangle" == "fa-exclamation-triangle"
    ensures "fa-" + "info-circle" == "fa-info-circle"
  {
  }

  /** A toast shows the same icon as a notification of the same type. */
  lemma ToastIconMatchesNotification(kind: string)
    ensures ToastIcon(kind) == "fa-" + Utils.NotificationIcon(kind)
  {
    FaIcons();
  }
}
