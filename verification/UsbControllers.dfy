/** The USB path machine's controllers, as far as its readers see them. */
module UsbControllers {
  datatype Phase = Routed | Claiming | Direct | AwaitingFramework | RestoreStuck | NeedsReplug

  datatype Controller = Controller(vendorId: int, productId: int, phase: Phase, frameworkExpected: bool)
}
