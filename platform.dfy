/** The platform hook: classifies the browser from its user agent and the
    viewport width, and derives one flag per platform. */
module Platform {
  import opened Text

  datatype Kind = Ios | Android | Desktop

  /** `/iphone|ipad|ipod/` on the lower-cased user agent. */
  predicate IsIosAgent(ua: string) {
    var l := Lower(ua);
    Includes(l, "iphone") || Includes(l, "ipad") || Includes(l, "ipod")
  }

  /** `/android/` on the lower-cased user agent. */
  predicate IsAndroidAgent(ua: string) {
    Includes(Lower(ua), "android")
  }

  /** The platform: an Apple device wins over Android; neither is desktop. */
  function Classify(ua: string): (k: Kind)
    ensures k == Ios <==> IsIosAgent(ua)
    ensures k == Android <==> !IsIosAgent(ua) && IsAndroidAgent(ua)
    ensures k == Desktop <==> !IsIosAgent(ua) && !IsAndroidAgent(ua)
  {
    if IsIosAgent(ua) then Ios else if IsAndroidAgent(ua) then Android else Desktop
  }

  /** The hook's state, before the first check `desktop` and not mobile. */
  class PlatformState {
    var platform: Kind
    var isMobile: bool

    constructor ()
      ensures platform == Desktop && !isMobile
    {
      platform := Desktop;
      isMobile := false;
    }

    /** `checkPlatform`, run on mount and on every resize; `mobileQuery` is
        whether the viewport is at most 1023 pixels wide. */
    method CheckPlatform(ua: string, mobileQuery: bool)
      modifies this
      ensures platform == Classify(ua)
      ensures isMobile <==> mobileQuery || IsIosAgent(ua) || IsAndroidAgent(ua)
      ensures !isMobile ==> platform == Desktop
    {
      var ios := IsIosAgent(ua);
      var android := IsAndroidAgent(ua);
      if ios {
        platform := Ios;
      } else if android {
        platform := Android;
      } else {
        platform := Desktop;
      }
      isMobile := mobileQuery || ios || android;
    }

    function IsIos(): bool
      reads this
    {
      platform == Ios
    }

    function IsAndroid(): bool
      reads this
    {
      platform == Android
    }

    function IsDesktop(): bool
      reads this
    {
      platform == Desktop
    }

    /** Exactly one of the three flags holds. */
    function FlagCount(): (n: nat)
      reads this
      ensures n == 1
    {
      (if IsIos() then 1 else 0) + (if IsAndroid() then 1 else 0) + (if IsDesktop() then 1 else 0)
    }
  }
}
