/**
 * SuBSDialogService: the Bootstrap flavour of the dialog service. Its
 * constructor runs the base constructor and then appends Bootstrap's modal
 * class and display style to the background settings. Dafny classes do not
 * inherit from classes, so the subclass constructor is a method that builds
 * a SuDialogService and applies the same two updates.
 */
module BootstrapDialogs {
  import opened Dialogs

  const ModalClassSuffix: string := " modal show"
  const ModalStyleSuffix: string := " display: block;"

  /** The SuBSDialogService constructor. */
  method NewSuBSDialogService(option: Options) returns (svc: SuDialogService)
    ensures fresh(svc) && svc.Valid()
    ensures svc.BackgroundClass == option.backgroundClass + ModalClassSuffix
    ensures svc.BackgroundStyle == option.backgroundStyle + ModalStyleSuffix
    ensures svc.ZIndex == option.zIndex
    ensures svc.DialogContexts == [] && svc.ChangeEvents == 0
  {
    svc := new SuDialogService(option);
    svc.BackgroundClass := svc.BackgroundClass + ModalClassSuffix;
    svc.BackgroundStyle := svc.BackgroundStyle + ModalStyleSuffix;
  }

  /**
   * With the default options the background settings are the bare suffixes,
   * each with its leading space, and the z-index is 1000.
   */
  method NewDefaultSuBSDialogService() returns (svc: SuDialogService)
    ensures svc.Valid() && svc.DialogContexts == []
    ensures svc.BackgroundClass == " modal show"
    ensures svc.BackgroundStyle == " display: block;"
    ensures svc.ZIndex == 1000
  {
    svc := NewSuBSDialogService(DefaultOptions);
  }
}
