/** What the components ask of the browser and the router: `alert(...)` and
    `router.navigate([...])`, recorded as values instead of performed. */
module Ui {

  datatype UiEffect = Alert(message: string) | Navigate(commands: seq<string>)

  const AdminOnlyAdd := "Only administrators can add new employees."
  const OwnRecordOnly := "You can only edit your own employee details."
}
