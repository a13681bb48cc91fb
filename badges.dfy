/** The badge colour classes used by the status colour mappings. */
module Badges {
  const SuccessBadge := "bg-success text-success-foreground"
  const WarningBadge := "bg-warning text-warning-foreground"
  const DestructiveBadge := "bg-destructive text-destructive-foreground"
  const PrimaryBadge := "bg-primary text-primary-foreground"
  const MutedBadge := "bg-muted text-muted-foreground"
}
